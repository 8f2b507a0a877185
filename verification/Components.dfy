/** Connected-component clustering (`refine/summarize.py`): a recursive walk that
    carries the least id met so far, then grouping by the least such id. */
module Components {
  import opened Graph
  import RecursiveCte
  import OrderLimit

  /** (memo_id, root_id) */
  type Row = (Id, Id)

  const MIN_CLUSTER_SIZE: nat := 2

  function Least(a: Id, b: Id): Id {
    if a.AtMost(b) then a else b
  }

  /** The recursive arm: any relationship, LEAST of the root and the far end. */
  function Step(es: set<Edge>): Row -> set<Row> {
    (row: Row) => set n | n in Neighbours(es, row.0) :: (n, Least(row.1, n))
  }

  function Seeded(seeds: set<Id>): set<Row> {
    set s | s in seeds :: (s, s)
  }

  function Nodes(es: set<Edge>, seeds: set<Id>): set<Id> {
    seeds + (set e | e in es :: e.source) + (set e | e in es :: e.target)
  }

  /** All the pairs the walk could ever form: finitely many, so it stops. */
  ghost function Pairs(es: set<Edge>, seeds: set<Id>): set<Row> {
    set m, r | m in Nodes(es, seeds) && r in Nodes(es, seeds) :: (m, r)
  }

  lemma PairsClosed(es: set<Edge>, seeds: set<Id>)
    ensures Seeded(seeds) <= Pairs(es, seeds)
    ensures RecursiveCte.Closed(Step(es), Pairs(es, seeds))
  {
    forall row, next | row in Pairs(es, seeds) && next in Step(es)(row)
      ensures next in Pairs(es, seeds)
    {
      assert next.0 in Neighbours(es, row.0);
    }
  }

  ghost predicate IsWalkTable(es: set<Edge>, seeds: set<Id>, rows: set<Row>) {
    && Seeded(seeds) <= rows
    && RecursiveCte.Closed(Step(es), rows)
    && forall row :: row in rows <==> RecursiveCte.Derivable(Seeded(seeds), Step(es), row)
  }

  method Walk(es: set<Edge>, seeds: set<Id>) returns (rows: set<Row>)
    ensures IsWalkTable(es, seeds, rows)
  {
    PairsClosed(es, seeds);
    rows := RecursiveCte.Union(Seeded(seeds), Step(es), Pairs(es, seeds));
  }

  /** A root never leaves the component of its memo, nor that of some seed. */
  lemma {:induction false} RootsStayInComponent(es: set<Edge>, seeds: set<Id>, c: seq<Row>) returns (s: Id)
    requires RecursiveCte.IsDerivation(Seeded(seeds), Step(es), c)
    ensures s in seeds
    ensures Connected(es, s, c[|c| - 1].0) && Connected(es, s, c[|c| - 1].1)
    decreases |c|
  {
    var last := c[|c| - 1];
    if |c| == 1 {
      s := last.0;
      ConnectedReflexive(es, s);
    } else {
      var d := c[..|c| - 1];
      var prev := d[|d| - 1];
      s := RootsStayInComponent(es, seeds, d);
      assert last in Step(es)(prev);
      NeighboursAreAdjacent(es, prev.0, last.0);
      AdjacentConnected(es, prev.0, last.0);
      ConnectedTransitive(es, s, prev.0, last.0);
    }
  }

  /** Following a walk carries a root along and lowers it to the least id met. */
  lemma {:induction false} WalkCarriesRoots(es: set<Edge>, rows: set<Row>, p: seq<Id>, r: Id) returns (low: Id)
    requires RecursiveCte.Closed(Step(es), rows)
    requires IsWalk(es, p) && (p[0], r) in rows
    ensures (p[|p| - 1], low) in rows && low.AtMost(r)
    ensures |p| > 1 ==> low.AtMost(p[|p| - 1])
    decreases |p|
  {
    if |p| == 1 {
      low := r;
    } else {
      var q := p[..|p| - 1];
      assert IsWalk(es, q);
      var mid := WalkCarriesRoots(es, rows, q, r);
      var x, y := q[|q| - 1], p[|p| - 1];
      assert Adjacent(es, p[|p| - 2], p[|p| - 2 + 1]);
      NeighboursAreAdjacent(es, x, y);
      low := Least(mid, y);
      assert (y, low) in Step(es)((x, mid));
    }
  }

  ghost predicate IsLeastOfComponent(es: set<Edge>, m: Id, low: Id) {
    && Connected(es, m, low)
    && forall n | Connected(es, m, n) :: low.rank <= n.rank
  }

  ghost predicate IsMinRoot(rows: set<Row>, m: Id, low: Id) {
    && (m, low) in rows
    && forall r | (m, r) in rows :: low.AtMost(r)
  }

  /** MIN(root_id) of a reached memo is the least id of its component. */
  lemma MinRootIsComponentLeast(es: set<Edge>, seeds: set<Id>, rows: set<Row>, m: Id, low: Id)
    requires IsWalkTable(es, seeds, rows) && IsMinRoot(rows, m, low)
    ensures IsLeastOfComponent(es, m, low)
  {
    var c :| RecursiveCte.IsDerivation(Seeded(seeds), Step(es), c) && c[|c| - 1] == (m, low);
    var s := RootsStayInComponent(es, seeds, c);
    ConnectedSymmetric(es, s, m);
    ConnectedTransitive(es, m, s, low);
    forall n | Connected(es, m, n)
      ensures low.AtMost(n)
    {
      ConnectedTransitive(es, s, m, n);
      ConnectedSymmetric(es, m, n);
      var p :| IsWalk(es, p) && p[0] == s && p[|p| - 1] == n;
      assert (s, s) in rows;
      var atN := WalkCarriesRoots(es, rows, p, s);
      assert |p| == 1 ==> n == s && atN.AtMost(n);
      var q :| IsWalk(es, q) && q[0] == n && q[|q| - 1] == m;
      var atM := WalkCarriesRoots(es, rows, q, atN);
    }
  }

  /** The walk reaches exactly the components of the seeds. */
  lemma ReachedIsConnected(es: set<Edge>, seeds: set<Id>, rows: set<Row>, m: Id)
    requires IsWalkTable(es, seeds, rows)
    ensures (exists r :: (m, r) in rows) <==> (exists s :: s in seeds && Connected(es, s, m))
  {
    if r :| (m, r) in rows {
      var c :| RecursiveCte.IsDerivation(Seeded(seeds), Step(es), c) && c[|c| - 1] == (m, r);
      var s := RootsStayInComponent(es, seeds, c);
    }
    if s :| s in seeds && Connected(es, s, m) {
      var p :| IsWalk(es, p) && p[0] == s && p[|p| - 1] == m;
      assert (s, s) in rows;
      var r := WalkCarriesRoots(es, rows, p, s);
    }
  }

  /** Two reached memos get the same root exactly when they are connected. */
  lemma SameRootIffConnected(es: set<Edge>, seeds: set<Id>, rows: set<Row>, a: Id, lowA: Id, b: Id, lowB: Id)
    requires IsWalkTable(es, seeds, rows)
    requires IsMinRoot(rows, a, lowA) && IsMinRoot(rows, b, lowB)
    ensures lowA == lowB <==> Connected(es, a, b)
  {
    MinRootIsComponentLeast(es, seeds, rows, a, lowA);
    MinRootIsComponentLeast(es, seeds, rows, b, lowB);
    if lowA == lowB {
      ConnectedSymmetric(es, b, lowA);
      ConnectedTransitive(es, a, lowA, b);
    }
    if Connected(es, a, b) {
      ConnectedSymmetric(es, a, b);
      ConnectedTransitive(es, a, b, lowB);
      ConnectedTransitive(es, b, a, lowA);
    }
  }

  // ----- grouping

  /** MIN(root_id) of one memo. */
  method MinRoot(rows: set<Row>, m: Id) returns (low: Id)
    requires exists r :: (m, r) in rows
    ensures IsMinRoot(rows, m, low)
  {
    var mine := set row | row in rows && row.0 == m :: row.1;
    ghost var r :| (m, r) in rows;
    assert r in mine by { assert (m, r).0 == m; }
    low := OrderLimit.First(mine, (a: Id, b: Id) => a.AtMost(b));
    var row :| row in rows && row.0 == m && row.1 == low;
    assert row == (m, low);
    forall x | (m, x) in rows ensures low.AtMost(x) { assert (m, x).0 == m && x in mine; }
  }

  ghost predicate IsGrouping(rows: set<Row>, done: set<Id>, byRoot: map<Id, set<Id>>) {
    && (forall low, m | low in byRoot && m in byRoot[low] :: m in done && IsMinRoot(rows, m, low))
    && (forall m | m in done :: exists low :: low in byRoot && m in byRoot[low])
    && (forall low | low in byRoot :: byRoot[low] != {})
  }

  lemma GroupOneMore(rows: set<Row>, done: set<Id>, byRoot: map<Id, set<Id>>, m: Id, low: Id)
    requires IsGrouping(rows, done, byRoot) && IsMinRoot(rows, m, low)
    ensures IsGrouping(rows, done + {m}, byRoot[low := (if low in byRoot then byRoot[low] else {}) + {m}])
  {
    var after := byRoot[low := (if low in byRoot then byRoot[low] else {}) + {m}];
    assert forall k | k in byRoot :: k in after && byRoot[k] <= after[k];
    forall x | x in done + {m}
      ensures exists k :: k in after && x in after[k]
    {
      if x in done {
        var k :| k in byRoot && x in byRoot[k];
        assert k in after && x in after[k];
      } else {
        assert low in after && m in after[low];
      }
    }
  }

  /** `by_root.setdefault(comp, []).append(mid)` over the query's rows. */
  method GroupByRoot(rows: set<Row>) returns (byRoot: map<Id, set<Id>>)
    ensures IsGrouping(rows, set row | row in rows :: row.0, byRoot)
  {
    var todo := set row | row in rows :: row.0;
    ghost var reached := todo;
    byRoot := map[];
    while todo != {}
      invariant todo <= reached
      invariant IsGrouping(rows, reached - todo, byRoot)
      decreases todo
    {
      var m :| m in todo;
      var row :| row in rows && row.0 == m;
      assert (m, row.1) in rows;
      var low := MinRoot(rows, m);
      GroupOneMore(rows, reached - todo, byRoot, m, low);
      byRoot := byRoot[low := (if low in byRoot then byRoot[low] else {}) + {m}];
      assert reached - (todo - {m}) == reached - todo + {m};
      todo := todo - {m};
    }
    assert reached - todo == reached;
  }

  /** `c` is the whole connected component of some seed. */
  ghost predicate IsSeedComponent(es: set<Edge>, seeds: set<Id>, c: set<Id>) {
    exists s :: s in seeds && s in c && forall m :: m in c <==> Connected(es, s, m)
  }

  predicate Larger(a: set<Id>, b: set<Id>) {
    |a| >= |b|
  }

  /** The groups are exactly the components of the seeds. */
  lemma GroupsAreComponents(
      es: set<Edge>, seeds: set<Id>, rows: set<Row>, reached: set<Id>, byRoot: map<Id, set<Id>>, c: set<Id>)
    requires IsWalkTable(es, seeds, rows)
    requires forall m :: m in reached <==> exists r :: (m, r) in rows
    requires IsGrouping(rows, reached, byRoot)
    ensures c in byRoot.Values <==> IsSeedComponent(es, seeds, c)
  {
    if c in byRoot.Values {
      var low :| low in byRoot && byRoot[low] == c;
      GroupIsComponent(es, seeds, rows, reached, byRoot, low);
    }
    if IsSeedComponent(es, seeds, c) {
      var s :| s in seeds && s in c && forall m :: m in c <==> Connected(es, s, m);
      assert (s, s) in rows;
      assert s in reached;
      var low :| low in byRoot && s in byRoot[low];
      GroupOf(es, seeds, rows, reached, byRoot, low, s);
      assert byRoot[low] == c;
    }
  }

  /** The group holding `a` holds exactly the memos connected to it. */
  lemma GroupOf(
      es: set<Edge>, seeds: set<Id>, rows: set<Row>, reached: set<Id>, byRoot: map<Id, set<Id>>, low: Id, a: Id)
    requires IsWalkTable(es, seeds, rows)
    requires forall m :: m in reached <==> exists r :: (m, r) in rows
    requires IsGrouping(rows, reached, byRoot)
    requires low in byRoot && a in byRoot[low]
    ensures forall m :: m in byRoot[low] <==> Connected(es, a, m)
  {
    forall m
      ensures m in byRoot[low] <==> Connected(es, a, m)
    {
      if m in byRoot[low] {
        SameRootIffConnected(es, seeds, rows, a, low, m, low);
      }
      if Connected(es, a, m) {
        assert a in reached && IsMinRoot(rows, a, low);
        assert (a, low) in rows;
        ReachedIsConnected(es, seeds, rows, a);
        var s :| s in seeds && Connected(es, s, a);
        ConnectedTransitive(es, s, a, m);
        ReachedIsConnected(es, seeds, rows, m);
        assert m in reached;
        var k :| k in byRoot && m in byRoot[k];
        SameRootIffConnected(es, seeds, rows, a, low, m, k);
      }
    }
  }

  lemma GroupIsComponent(
      es: set<Edge>, seeds: set<Id>, rows: set<Row>, reached: set<Id>, byRoot: map<Id, set<Id>>, low: Id)
    requires IsWalkTable(es, seeds, rows)
    requires forall m :: m in reached <==> exists r :: (m, r) in rows
    requires IsGrouping(rows, reached, byRoot)
    requires low in byRoot
    ensures IsSeedComponent(es, seeds, byRoot[low])
  {
    var a :| a in byRoot[low];
    assert a in reached && IsMinRoot(rows, a, low);
    ReachedIsConnected(es, seeds, rows, a);
    var s :| s in seeds && Connected(es, s, a);
    ConnectedSymmetric(es, s, a);
    GroupOf(es, seeds, rows, reached, byRoot, low, a);
    GroupOf(es, seeds, rows, reached, byRoot, low, s);
  }

  /** As many of the components as asked for, largest first, none left out that is larger. */
  ghost predicate AreLargest(components: set<set<Id>>, most: nat, clusters: seq<set<Id>>) {
    && |clusters| == (if most < |components| then most else |components|)
    && (forall i | 0 <= i < |clusters| :: clusters[i] in components)
    && (forall i, j | 0 <= i < j < |clusters| :: clusters[i] != clusters[j] && |clusters[i]| >= |clusters[j]|)
    && (forall i, c | 0 <= i < |clusters| && c in components && c !in clusters :: |clusters[i]| >= |c|)
  }

  lemma TopAreLargest(components: set<set<Id>>, most: nat, clusters: seq<set<Id>>)
    requires OrderLimit.IsTop(components, Larger, most, clusters)
    ensures AreLargest(components, most, clusters)
  {
    assert forall i | 0 <= i < |clusters| :: clusters[i] in clusters;
    assert forall i, j | 0 <= i < j < |clusters| :: Larger(clusters[i], clusters[j]);
    assert forall i, c | 0 <= i < |clusters| && c in components && c !in clusters :: Larger(clusters[i], c);
  }

  /** `_cluster_memos_by_components`: the components of the seeds with at least
      two members, largest first, at most `maxClusters` of them. */
  method Cluster(table: Relationships, org: Id, seeds: set<Id>, maxClusters: nat)
    returns (clusters: seq<set<Id>>, ghost components: set<set<Id>>)
    ensures forall c :: c in components <==>
      IsSeedComponent(OrgEdges(table, org), seeds, c) && |c| >= 2
    ensures AreLargest(components, maxClusters, clusters)
    ensures forall i, j | 0 <= i < j < |clusters| :: clusters[i] !! clusters[j]
  {
    var es := OrgEdges(table, org);
    var rows := Walk(es, seeds);
    var byRoot := GroupByRoot(rows);
    ghost var reached := set row | row in rows :: row.0;
    forall m
      ensures m in reached <==> exists r :: (m, r) in rows
    {
      if r :| (m, r) in rows { assert (m, r).0 == m; }
      if m in reached { var row :| row in rows && row.0 == m; assert (m, row.1) in rows; }
    }
    forall c
      ensures c in byRoot.Values <==> IsSeedComponent(es, seeds, c)
    {
      GroupsAreComponents(es, seeds, rows, reached, byRoot, c);
    }
    var all := set c | c in byRoot.Values && |c| >= MIN_CLUSTER_SIZE;
    components := all;
    clusters := OrderLimit.Take(all, Larger, maxClusters);
    TopAreLargest(all, maxClusters, clusters);
    forall i, j | 0 <= i < j < |clusters|
      ensures clusters[i] !! clusters[j]
    {
      ComponentsDisjoint(es, seeds, clusters[i], clusters[j]);
    }
  }

  lemma ComponentsDisjoint(es: set<Edge>, seeds: set<Id>, a: set<Id>, b: set<Id>)
    requires IsSeedComponent(es, seeds, a) && IsSeedComponent(es, seeds, b)
    requires a != b
    ensures a !! b
  {
    var s :| s in seeds && s in a && forall m :: m in a <==> Connected(es, s, m);
    var t :| t in seeds && t in b && forall m :: m in b <==> Connected(es, t, m);
    if x: Id :| x in a && x in b {
      ConnectedSymmetric(es, t, x);
      ConnectedTransitive(es, s, x, t);
      ConnectedSymmetric(es, s, t);
      forall m
        ensures m in a <==> m in b
      {
        if m in a { ConnectedTransitive(es, t, s, m); }
        if m in b { ConnectedTransitive(es, s, t, m); }
      }
    }
  }
}
