/** `memory_relationships` read as an undirected graph: edges, walks and the
    balls and spheres that the traversals of the engine are measured against. */
module Graph {

  /** A UUID, used only through equality and a total order. */
  datatype Id = Id(rank: int) {
    predicate AtMost(other: Id) {
      rank <= other.rank
    }
  }

  datatype Relationship = Relationship(org: Id, source: Id, target: Id, weight: real, codegraph: bool)

  /** The table, keyed by the row's primary key. */
  type Relationships = map<Id, Relationship>

  datatype Edge = Edge(source: Id, target: Id)

  function OrgEdges(table: Relationships, org: Id): set<Edge> {
    set id | id in table && table[id].org == org :: Edge(table[id].source, table[id].target)
  }

  /** The rows whose metadata carries `codegraph_kind`. */
  function CodeEdges(table: Relationships): set<Edge> {
    set id | id in table && table[id].codegraph :: Edge(table[id].source, table[id].target)
  }

  predicate Touches(e: Edge, m: Id) {
    e.source == m || e.target == m
  }

  /** CASE WHEN source = m THEN target ELSE source END. */
  function OtherEnd(e: Edge, m: Id): Id {
    if e.source == m then e.target else e.source
  }

  function Neighbours(es: set<Edge>, m: Id): set<Id> {
    set e | e in es && Touches(e, m) :: OtherEnd(e, m)
  }

  predicate Adjacent(es: set<Edge>, a: Id, b: Id) {
    Edge(a, b) in es || Edge(b, a) in es
  }

  lemma NeighboursAreAdjacent(es: set<Edge>, a: Id, b: Id)
    ensures b in Neighbours(es, a) <==> Adjacent(es, a, b)
  {
    if Edge(a, b) in es {
      assert OtherEnd(Edge(a, b), a) == b;
    } else if Edge(b, a) in es {
      assert OtherEnd(Edge(b, a), a) == b;
    }
  }

  /** A non-empty list of ids, each adjacent to the next. */
  predicate IsWalk(es: set<Edge>, p: seq<Id>) {
    && p != []
    && forall i | 0 <= i < |p| - 1 :: Adjacent(es, p[i], p[i + 1])
  }

  ghost predicate HasWalk(es: set<Edge>, seeds: set<Id>, m: Id, h: nat) {
    exists p: seq<Id> :: IsWalk(es, p) && |p| == h + 1 && p[0] in seeds && p[h] == m
  }

  ghost predicate Within(es: set<Edge>, seeds: set<Id>, m: Id, n: nat) {
    exists h: nat :: h <= n && HasWalk(es, seeds, m, h)
  }

  /** The length of the shortest walk from a seed to `m` is `d`. */
  ghost predicate AtDistance(es: set<Edge>, seeds: set<Id>, m: Id, d: nat) {
    && HasWalk(es, seeds, m, d)
    && forall h: nat | h < d :: !HasWalk(es, seeds, m, h)
  }

  ghost predicate Connected(es: set<Edge>, a: Id, b: Id) {
    exists p: seq<Id> :: IsWalk(es, p) && p[0] == a && p[|p| - 1] == b
  }

  // ----- read off the rows

  /** Some row of the tenant links the two memories, in either direction. */
  predicate Links(table: Relationships, org: Id, a: Id, b: Id) {
    exists id | id in table :: table[id].org == org
      && ((table[id].source == a && table[id].target == b) || (table[id].source == b && table[id].target == a))
  }

  /** Some codegraph row does. */
  predicate CodeLinks(table: Relationships, a: Id, b: Id) {
    exists id | id in table :: table[id].codegraph
      && ((table[id].source == a && table[id].target == b) || (table[id].source == b && table[id].target == a))
  }

  /** A walk along the tenant's edges is one along its rows. */
  lemma OrgAdjacentIffLinks(table: Relationships, org: Id, a: Id, b: Id)
    ensures Adjacent(OrgEdges(table, org), a, b) <==> Links(table, org, a, b)
  {
    if Edge(a, b) in OrgEdges(table, org) {
      var id :| id in table && table[id].org == org && Edge(table[id].source, table[id].target) == Edge(a, b);
    }
    if Edge(b, a) in OrgEdges(table, org) {
      var id :| id in table && table[id].org == org && Edge(table[id].source, table[id].target) == Edge(b, a);
    }
    if Links(table, org, a, b) {
      var id :| id in table && table[id].org == org
        && ((table[id].source == a && table[id].target == b) || (table[id].source == b && table[id].target == a));
      assert Edge(table[id].source, table[id].target) in OrgEdges(table, org);
    }
  }

  lemma CodeAdjacentIffLinks(table: Relationships, a: Id, b: Id)
    ensures Adjacent(CodeEdges(table), a, b) <==> CodeLinks(table, a, b)
  {
    if Edge(a, b) in CodeEdges(table) {
      var id :| id in table && table[id].codegraph && Edge(table[id].source, table[id].target) == Edge(a, b);
    }
    if Edge(b, a) in CodeEdges(table) {
      var id :| id in table && table[id].codegraph && Edge(table[id].source, table[id].target) == Edge(b, a);
    }
    if CodeLinks(table, a, b) {
      var id :| id in table && table[id].codegraph
        && ((table[id].source == a && table[id].target == b) || (table[id].source == b && table[id].target == a));
      assert Edge(table[id].source, table[id].target) in CodeEdges(table);
    }
  }

  /** Rows of the tenant lead from a seed to `m` in at most `n` steps. */
  ghost predicate Reaches(table: Relationships, org: Id, seeds: set<Id>, m: Id, n: nat) {
    exists p :: IsRowWalk(table, org, p) && |p| <= n + 1 && p[0] in seeds && p[|p| - 1] == m
  }

  predicate IsRowWalk(table: Relationships, org: Id, p: seq<Id>) {
    p != [] && forall i | 0 <= i < |p| - 1 :: Links(table, org, p[i], p[i + 1])
  }

  lemma RowWalkIffWalk(table: Relationships, org: Id, p: seq<Id>)
    ensures IsRowWalk(table, org, p) <==> IsWalk(OrgEdges(table, org), p)
  {
    forall i | 0 <= i < |p| - 1
      ensures Links(table, org, p[i], p[i + 1]) <==> Adjacent(OrgEdges(table, org), p[i], p[i + 1])
    {
      OrgAdjacentIffLinks(table, org, p[i], p[i + 1]);
    }
  }

  lemma ReachesIffWithin(table: Relationships, org: Id, seeds: set<Id>, m: Id, n: nat)
    ensures Reaches(table, org, seeds, m, n) <==> Within(OrgEdges(table, org), seeds, m, n)
  {
    var es := OrgEdges(table, org);
    if p :| IsRowWalk(table, org, p) && |p| <= n + 1 && p[0] in seeds && p[|p| - 1] == m {
      RowWalkIffWalk(table, org, p);
      assert HasWalk(es, seeds, m, |p| - 1);
    }
    if h: nat :| h <= n && HasWalk(es, seeds, m, h) {
      var p :| IsWalk(es, p) && |p| == h + 1 && p[0] in seeds && p[h] == m;
      RowWalkIffWalk(table, org, p);
    }
  }

  // ----- the same notions, level by level

  function NeighboursOf(es: set<Edge>, xs: set<Id>): set<Id> {
    set x, y | x in xs && y in Neighbours(es, x) :: y
  }

  /** Ends of the walks of exactly `h` edges. */
  function Steps(es: set<Edge>, seeds: set<Id>, h: nat): set<Id> {
    if h == 0 then seeds else NeighboursOf(es, Steps(es, seeds, h - 1))
  }

  function Ball(es: set<Edge>, seeds: set<Id>, n: nat): set<Id> {
    if n == 0 then seeds else Ball(es, seeds, n - 1) + Steps(es, seeds, n)
  }

  function Sphere(es: set<Edge>, seeds: set<Id>, n: nat): set<Id> {
    if n == 0 then seeds else Steps(es, seeds, n) - Ball(es, seeds, n - 1)
  }

  lemma {:induction false} StepsAreWalks(es: set<Edge>, seeds: set<Id>, m: Id, h: nat)
    ensures m in Steps(es, seeds, h) <==> HasWalk(es, seeds, m, h)
    decreases h
  {
    if h == 0 {
      if m in seeds {
        assert IsWalk(es, [m]) && |[m]| == 1 && [m][0] in seeds;
      }
    } else {
      if m in Steps(es, seeds, h) {
        var x :| x in Steps(es, seeds, h - 1) && m in Neighbours(es, x);
        StepsAreWalks(es, seeds, x, h - 1);
        NeighboursAreAdjacent(es, x, m);
        var p :| IsWalk(es, p) && |p| == h && p[0] in seeds && p[h - 1] == x;
        var q := p + [m];
        assert forall i | 0 <= i < |q| - 1 :: Adjacent(es, q[i], q[i + 1]);
        assert q[h] == m;
      }
      if HasWalk(es, seeds, m, h) {
        var p :| IsWalk(es, p) && |p| == h + 1 && p[0] in seeds && p[h] == m;
        var q, x := p[..h], p[h - 1];
        assert IsWalk(es, q) && |q| == h && q[0] in seeds && q[h - 1] == x;
        StepsAreWalks(es, seeds, x, h - 1);
        assert Adjacent(es, p[h - 1], p[h - 1 + 1]);
        NeighboursAreAdjacent(es, x, m);
      }
    }
  }

  lemma {:induction false} StepsInBall(es: set<Edge>, seeds: set<Id>, h: nat, n: nat)
    requires h <= n
    ensures Steps(es, seeds, h) <= Ball(es, seeds, n)
  {
    if h < n {
      StepsInBall(es, seeds, h, n - 1);
    }
  }

  lemma {:induction false} BallIsWithin(es: set<Edge>, seeds: set<Id>, m: Id, n: nat)
    ensures m in Ball(es, seeds, n) <==> Within(es, seeds, m, n)
    decreases n
  {
    StepsAreWalks(es, seeds, m, n);
    if n > 0 {
      BallIsWithin(es, seeds, m, n - 1);
    }
    if Within(es, seeds, m, n) {
      var h: nat :| h <= n && HasWalk(es, seeds, m, h);
      StepsAreWalks(es, seeds, m, h);
      StepsInBall(es, seeds, h, n);
    }
  }

  lemma SphereIsDistance(es: set<Edge>, seeds: set<Id>, m: Id, n: nat)
    ensures m in Sphere(es, seeds, n) <==> AtDistance(es, seeds, m, n)
  {
    StepsAreWalks(es, seeds, m, n);
    if n > 0 {
      BallIsWithin(es, seeds, m, n - 1);
    }
  }

  /** Expanding only the newest sphere finds the whole next ball. */
  lemma BallFromSphere(es: set<Edge>, seeds: set<Id>, n: nat)
    ensures Ball(es, seeds, n + 1) == Ball(es, seeds, n) + NeighboursOf(es, Sphere(es, seeds, n))
    ensures Sphere(es, seeds, n + 1) == NeighboursOf(es, Sphere(es, seeds, n)) - Ball(es, seeds, n)
  {
    forall m | m in Steps(es, seeds, n + 1)
      ensures m in Ball(es, seeds, n) + NeighboursOf(es, Sphere(es, seeds, n))
    {
      var x :| x in Steps(es, seeds, n) && m in Neighbours(es, x);
      if x !in Sphere(es, seeds, n) {
        BallIsWithin(es, seeds, x, n - 1);
        var h: nat :| h <= n - 1 && HasWalk(es, seeds, x, h);
        StepsAreWalks(es, seeds, x, h);
        assert m in Steps(es, seeds, h + 1);
        StepsInBall(es, seeds, h + 1, n);
      }
    }
    assert NeighboursOf(es, Sphere(es, seeds, n)) <= Steps(es, seeds, n + 1);
  }

  lemma SphereThenBall(es: set<Edge>, seeds: set<Id>, n: nat)
    requires n > 0 && Sphere(es, seeds, n - 1) == {}
    ensures Ball(es, seeds, n) == Ball(es, seeds, n - 1) && Sphere(es, seeds, n) == {}
  {
    BallFromSphere(es, seeds, n - 1);
    assert NeighboursOf(es, {}) == {};
  }

  /** An empty sphere ends the growth of the ball. */
  lemma {:induction false} BallStops(es: set<Edge>, seeds: set<Id>, k: nat, n: nat)
    requires Sphere(es, seeds, k) == {} && k <= n
    ensures Ball(es, seeds, n) == Ball(es, seeds, k) && Sphere(es, seeds, n) == {}
    decreases n - k
  {
    if k < n {
      SphereThenBall(es, seeds, k + 1);
      BallStops(es, seeds, k + 1, n);
    }
  }

  // ----- connectedness is an equivalence

  lemma ConnectedReflexive(es: set<Edge>, a: Id)
    ensures Connected(es, a, a)
  {
    assert IsWalk(es, [a]) && [a][0] == a;
  }

  lemma {:induction false} ConnectedSymmetric(es: set<Edge>, a: Id, b: Id)
    requires Connected(es, a, b)
    ensures Connected(es, b, a)
  {
    var p :| IsWalk(es, p) && p[0] == a && p[|p| - 1] == b;
    var q := seq(|p|, i requires 0 <= i < |p| => p[|p| - 1 - i]);
    forall i | 0 <= i < |q| - 1
      ensures Adjacent(es, q[i], q[i + 1])
    {
      var j := |p| - 2 - i;
      assert Adjacent(es, p[j], p[j + 1]);
    }
    assert IsWalk(es, q) && q[0] == b && q[|q| - 1] == a;
  }

  lemma ConnectedTransitive(es: set<Edge>, a: Id, b: Id, c: Id)
    requires Connected(es, a, b) && Connected(es, b, c)
    ensures Connected(es, a, c)
  {
    var p :| IsWalk(es, p) && p[0] == a && p[|p| - 1] == b;
    var q :| IsWalk(es, q) && q[0] == b && q[|q| - 1] == c;
    var r := p + q[1..];
    forall i | 0 <= i < |r| - 1
      ensures Adjacent(es, r[i], r[i + 1])
    {
      if i < |p| - 1 {
        assert Adjacent(es, p[i], p[i + 1]);
      } else {
        var j := i - (|p| - 1);
        assert r[i] == q[j] && r[i + 1] == q[j + 1];
        assert Adjacent(es, q[j], q[j + 1]);
      }
    }
    assert r[|r| - 1] == c;
  }

  lemma AdjacentConnected(es: set<Edge>, a: Id, b: Id)
    requires Adjacent(es, a, b)
    ensures Connected(es, a, b)
  {
    assert IsWalk(es, [a, b]) && [a, b][0] == a && [a, b][1] == b;
  }
}
