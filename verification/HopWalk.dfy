/** The CODE retrieval strategy (`retrieval/strategies/code.py`): a recursive
    query that pairs each memory with every hop count at which it is reached. */
module HopWalk {
  import opened Graph
  import RecursiveCte
  import OrderLimit

  type Row = (Id, nat)

  /** The recursive arm of the query: one codegraph edge, while `hop < hops`. */
  function Step(es: set<Edge>, hops: nat): Row -> set<Row> {
    (row: Row) => if row.1 < hops then set n | n in Neighbours(es, row.0) :: (n, row.1 + 1) else {}
  }

  function Seeded(seeds: set<Id>): set<Row> {
    set s | s in seeds :: (s, 0)
  }

  /** Every (memory, length) with a walk of that length from a seed. */
  ghost function WalkRows(es: set<Edge>, seeds: set<Id>, hops: nat): set<Row> {
    set h: nat, m | 0 <= h <= hops && m in Steps(es, seeds, h) :: (m, h)
  }

  lemma {:induction false} LevelsAreFound(es: set<Edge>, seeds: set<Id>, hops: nat, rows: set<Row>, m: Id, h: nat)
    requires Seeded(seeds) <= rows && RecursiveCte.Closed(Step(es, hops), rows)
    requires h <= hops && m in Steps(es, seeds, h)
    ensures (m, h) in rows
    decreases h
  {
    if h > 0 {
      var x :| x in Steps(es, seeds, h - 1) && m in Neighbours(es, x);
      LevelsAreFound(es, seeds, hops, rows, x, h - 1);
      assert (m, h) in Step(es, hops)((x, h - 1));
    }
  }

  lemma WalkRowsClosed(es: set<Edge>, seeds: set<Id>, hops: nat)
    ensures Seeded(seeds) <= WalkRows(es, seeds, hops)
    ensures RecursiveCte.Closed(Step(es, hops), WalkRows(es, seeds, hops))
  {
    forall s | s in seeds
      ensures (s, 0) in WalkRows(es, seeds, hops)
    {
      assert s in Steps(es, seeds, 0);
    }
    forall row, next | row in WalkRows(es, seeds, hops) && next in Step(es, hops)(row)
      ensures next in WalkRows(es, seeds, hops)
    {
      assert next.0 in Steps(es, seeds, row.1 + 1);
    }
  }

  /** The rows of the CTE are exactly the pairs (m, h), h <= hops, with a
      codegraph walk of length h from a seed to m. */
  method Walk(es: set<Edge>, seeds: set<Id>, hops: nat) returns (rows: set<Row>)
    ensures forall m, h: nat :: (m, h) in rows <==> h <= hops && HasWalk(es, seeds, m, h)
  {
    WalkRowsClosed(es, seeds, hops);
    rows := RecursiveCte.Union(Seeded(seeds), Step(es, hops), WalkRows(es, seeds, hops));
    forall m, h: nat
      ensures (m, h) in rows <==> h <= hops && HasWalk(es, seeds, m, h)
    {
      StepsAreWalks(es, seeds, m, h);
      if h <= hops && m in Steps(es, seeds, h) {
        LevelsAreFound(es, seeds, hops, rows, m, h);
      }
    }
  }

  /** MIN(hop) over the rows of one memory, searched from `from` up. */
  function MinHop(rows: set<Row>, m: Id, hops: nat, from: nat): (h: nat)
    requires exists k: nat :: from <= k <= hops && (m, k) in rows
    ensures from <= h <= hops && (m, h) in rows
    ensures forall k: nat | from <= k < h :: (m, k) !in rows
    decreases hops - from
  {
    if (m, from) in rows then from else MinHop(rows, m, hops, from + 1)
  }

  ghost predicate IsWalkTable(es: set<Edge>, seeds: set<Id>, hops: nat, rows: set<Row>) {
    forall m, h: nat :: (m, h) in rows <==> h <= hops && HasWalk(es, seeds, m, h)
  }

  /** MIN(hop) is the length of the shortest walk from a seed. */
  lemma MinHopIsDistance(es: set<Edge>, seeds: set<Id>, hops: nat, rows: set<Row>, m: Id)
    requires IsWalkTable(es, seeds, hops, rows)
    requires exists k: nat :: 0 <= k <= hops && (m, k) in rows
    ensures AtDistance(es, seeds, m, MinHop(rows, m, hops, 0))
  {
  }

  /** The walk and the level-by-level search of `Cascade.FindRelated` agree: the
      memories with a row are the ball, and those whose MIN(hop) is i are the
      i-th frontier. */
  lemma AgreesWithBreadthFirst(es: set<Edge>, seeds: set<Id>, hops: nat, rows: set<Row>, m: Id)
    requires IsWalkTable(es, seeds, hops, rows)
    ensures (exists k: nat :: 0 <= k <= hops && (m, k) in rows) <==> m in Ball(es, seeds, hops)
    ensures forall i: nat | i <= hops ::
      m in Sphere(es, seeds, i) <==>
        ((exists k: nat :: 0 <= k <= hops && (m, k) in rows) && MinHop(rows, m, hops, 0) == i)
  {
    BallIsWithin(es, seeds, m, hops);
    if k: nat :| 0 <= k <= hops && (m, k) in rows {
      MinHopIsDistance(es, seeds, hops, rows, m);
    }
    if Within(es, seeds, m, hops) {
      var h: nat :| h <= hops && HasWalk(es, seeds, m, h);
      assert (m, h) in rows;
    }
    forall i: nat | i <= hops
      ensures m in Sphere(es, seeds, i) <==>
        ((exists k: nat :: 0 <= k <= hops && (m, k) in rows) && MinHop(rows, m, hops, 0) == i)
    {
      SphereIsDistance(es, seeds, m, i);
      if m in Sphere(es, seeds, i) {
        assert (m, i) in rows;
        var d := MinHop(rows, m, hops, 0);
        assert HasWalk(es, seeds, m, d);
        assert !(d < i);
        assert !(i < d);
      }
    }
  }

  // ----- scoring

  /** max(0, 1 - hop / (hops + 1)) */
  function HopScore(hop: nat, hops: nat): (s: real)
    ensures hop <= hops ==> 1.0 / (hops as real + 1.0) <= s <= 1.0
    ensures hop <= hops ==> s == 1.0 - hop as real / (hops as real + 1.0)
  {
    var raw := 1.0 - hop as real / (hops as real + 1.0);
    assert hop <= hops ==> 0.0 < 1.0 / (hops as real + 1.0) <= raw <= 1.0 by {
      if hop <= hops { HopScoreBounds(hop as real, hops as real); }
    }
    if raw < 0.0 then 0.0 else raw
  }

  lemma HopScoreBounds(hop: real, hops: real)
    requires 0.0 <= hop <= hops
    ensures 1.0 / (hops + 1.0) <= 1.0 - hop / (hops + 1.0) <= 1.0
  {
    var d := hops + 1.0;
    assert hop / d <= hops / d;
    assert hops / d + 1.0 / d == 1.0;
  }

  /** A memory nearer to the seeds scores strictly higher. */
  lemma HopScoreStrictlyFalls(a: nat, b: nat, hops: nat)
    requires a < b <= hops
    ensures HopScore(a, hops) > HopScore(b, hops)
  {
    var d := hops as real + 1.0;
    assert a as real / d < b as real / d;
    HopScoreBounds(b as real, hops as real);
    HopScoreBounds(a as real, hops as real);
    assert 1.0 / d > 0.0;
  }

  /** One hop away scores 1/2 when one hop is allowed, and 2/3 when two are. */
  lemma OneHopScore(hops: nat)
    requires hops >= 1
    ensures HopScore(1, hops) == hops as real / (hops as real + 1.0)
    ensures HopScore(1, 1) == 0.5 && HopScore(1, 2) == 2.0 / 3.0
  {
    assert HopScore(1, hops) == 1.0 - 1.0 / (hops as real + 1.0);
  }

  datatype Memory = Memory(importance: real, deleted: bool)

  datatype Hit = Hit(memory: Id, minHop: nat, importance: real)

  /** ORDER BY min_hop ASC, importance_score DESC */
  predicate Before(a: Hit, b: Hit) {
    a.minHop < b.minHop || (a.minHop == b.minHop && a.importance >= b.importance)
  }

  datatype Scored = Scored(hit: Hit, hopScore: real, relevance: real)

  /** The undeleted memories within reach, each with its distance. */
  ghost predicate IsHit(memories: map<Id, Memory>, es: set<Edge>, seeds: set<Id>, hops: nat, hit: Hit) {
    && hit.memory in memories && !memories[hit.memory].deleted
    && hit.minHop <= hops && AtDistance(es, seeds, hit.memory, hit.minHop)
    && hit.importance == memories[hit.memory].importance
  }

  ghost function AllHits(memories: map<Id, Memory>, es: set<Edge>, seeds: set<Id>, hops: nat): set<Hit> {
    set m, h | m in memories && 0 <= h <= hops && IsHit(memories, es, seeds, hops, Hit(m, h, memories[m].importance)) ::
      Hit(m, h, memories[m].importance)
  }

  /** The join and the grouping: one row per undeleted memory reached. */
  method Join(memories: map<Id, Memory>, es: set<Edge>, seeds: set<Id>, hops: nat) returns (found: set<Hit>)
    ensures found == AllHits(memories, es, seeds, hops)
  {
    var rows := Walk(es, seeds, hops);
    var reached := set row | row in rows && row.0 in memories && !memories[row.0].deleted :: row.0;
    forall m | m in reached
      ensures exists k: nat :: 0 <= k <= hops && (m, k) in rows
    {
      var row :| row in rows && row.0 == m;
      assert (m, row.1) in rows;
    }
    found := set m | m in reached :: Hit(m, MinHop(rows, m, hops, 0), memories[m].importance);
    forall hit
      ensures hit in found <==> IsHit(memories, es, seeds, hops, hit)
    {
      if hit in found {
        MinHopIsDistance(es, seeds, hops, rows, hit.memory);
      }
      if IsHit(memories, es, seeds, hops, hit) {
        assert (hit.memory, hit.minHop) in rows;
        assert hit.memory in reached;
        MinHopIsDistance(es, seeds, hops, rows, hit.memory);
        assert hit == Hit(hit.memory, MinHop(rows, hit.memory, hops, 0), memories[hit.memory].importance);
      }
    }
    MembersOfAllHits(memories, es, seeds, hops);
  }

  lemma MembersOfAllHits(memories: map<Id, Memory>, es: set<Edge>, seeds: set<Id>, hops: nat)
    ensures forall hit :: hit in AllHits(memories, es, seeds, hops) <==> IsHit(memories, es, seeds, hops, hit)
  {
    forall hit | IsHit(memories, es, seeds, hops, hit)
      ensures hit in AllHits(memories, es, seeds, hops)
    {
      assert hit == Hit(hit.memory, hit.minHop, memories[hit.memory].importance);
    }
  }

  /** The score of a hit: 1 - hop / (hops + 1), and 0.70 of that with 0.30 of the
      importance. */
  predicate IsScored(r: Scored, hit: Hit, hops: nat) {
    && r.hit == hit
    && r.hopScore == 1.0 - hit.minHop as real / (hops as real + 1.0)
    && r.relevance == 0.70 * r.hopScore + 0.30 * hit.importance
  }

  /** The scoring loop. */
  method ScoreAll(order: seq<Hit>, hops: nat) returns (results: seq<Scored>)
    requires forall i | 0 <= i < |order| :: order[i].minHop <= hops
    ensures |results| == |order|
    ensures forall i | 0 <= i < |results| :: IsScored(results[i], order[i], hops)
    ensures forall i | 0 <= i < |results| :: 1.0 / (hops as real + 1.0) <= results[i].hopScore <= 1.0
  {
    results := [];
    for i := 0 to |order|
      invariant |results| == i
      invariant forall j | 0 <= j < i :: IsScored(results[j], order[j], hops)
      invariant forall j | 0 <= j < i :: 1.0 / (hops as real + 1.0) <= results[j].hopScore <= 1.0
    {
      var score := HopScore(order[i].minHop, hops);
      results := results + [Scored(order[i], score, 0.70 * score + 0.30 * order[i].importance)];
    }
  }

  /** The hits returned are hits, ranked, as many as asked for or there are, and none
      of those left out ranks strictly before one of them. */
  ghost predicate IsAnswer(
      memories: map<Id, Memory>, es: set<Edge>, seeds: set<Id>, hops: nat, topK: nat, results: seq<Scored>)
  {
    var all := AllHits(memories, es, seeds, hops);
    && |results| == (if topK < |all| then topK else |all|)
    && (forall i | 0 <= i < |results| :: IsHit(memories, es, seeds, hops, results[i].hit))
    && (forall i, j | 0 <= i < j < |results| ::
          var a, b := results[i].hit, results[j].hit;
          a != b && (a.minHop < b.minHop || (a.minHop == b.minHop && a.importance >= b.importance)))
    && forall i, b | 0 <= i < |results| && IsHit(memories, es, seeds, hops, b) ::
         var a := results[i].hit;
         || a.minHop < b.minHop || (a.minHop == b.minHop && a.importance >= b.importance)
         || IsAmong(results, b)
  }

  predicate IsAmong(results: seq<Scored>, hit: Hit) {
    exists j | 0 <= j < |results| :: results[j].hit == hit
  }

  lemma TopIsAnswer(
      memories: map<Id, Memory>, es: set<Edge>, seeds: set<Id>, hops: nat, topK: nat, order: seq<Hit>,
      results: seq<Scored>)
    requires OrderLimit.IsTop(AllHits(memories, es, seeds, hops), Before, topK, order)
    requires |results| == |order| && forall i | 0 <= i < |results| :: results[i].hit == order[i]
    ensures IsAnswer(memories, es, seeds, hops, topK, results)
  {
    MembersOfAllHits(memories, es, seeds, hops);
    forall i | 0 <= i < |order|
      ensures IsHit(memories, es, seeds, hops, order[i])
    {
      assert order[i] in order;
    }
    forall i, b | 0 <= i < |results| && IsHit(memories, es, seeds, hops, b)
      ensures Before(results[i].hit, b) || IsAmong(results, b)
    {
      if b in order {
        var j :| 0 <= j < |order| && order[j] == b;
        assert results[j].hit == b;
      } else {
        assert order[i] in order;
      }
    }
  }

  lemma TopWithinHops(
      memories: map<Id, Memory>, es: set<Edge>, seeds: set<Id>, hops: nat, topK: nat, order: seq<Hit>)
    requires OrderLimit.IsTop(AllHits(memories, es, seeds, hops), Before, topK, order)
    ensures forall i | 0 <= i < |order| :: order[i].minHop <= hops
  {
    forall i | 0 <= i < |order|
      ensures order[i].minHop <= hops
    {
      assert order[i] in order;
      MembersOfAllHits(memories, es, seeds, hops);
    }
  }

  /** Everything after the lexical seed query: the walk, the join with
      undeleted memories, the ordering, the limit and the scores. */
  method Retrieve(memories: map<Id, Memory>, table: Relationships, seeds: set<Id>, requestedHops: int, topK: nat)
    returns (results: seq<Scored>)
    ensures
      var hops := if requestedHops < 1 then 1 else requestedHops;
      && IsAnswer(memories, CodeEdges(table), seeds, hops, topK, results)
      && forall i | 0 <= i < |results| ::
        && IsScored(results[i], results[i].hit, hops)
        && 1.0 / (hops as real + 1.0) <= results[i].hopScore <= 1.0
  {
    var hops: nat := if requestedHops < 1 then 1 else requestedHops;
    var found := Join(memories, CodeEdges(table), seeds, hops);
    var order := OrderLimit.Take(found, Before, topK);
    TopWithinHops(memories, CodeEdges(table), seeds, hops, topK, order);
    results := ScoreAll(order, hops);
    TopIsAnswer(memories, CodeEdges(table), seeds, hops, topK, order, results);
  }
}
