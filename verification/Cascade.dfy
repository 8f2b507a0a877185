/** Cascade forget (`engine/forget.py`): breadth-first search over the tenant's
    relationships, then deletion of what was found. */
module Cascade {
  import opened Graph

  /** SELECT DISTINCT CASE WHEN source IN frontier THEN target ELSE source END
      over the rows with an end in the frontier. */
  function RelatedIds(es: set<Edge>, frontier: set<Id>): set<Id> {
    set e | e in es && (e.source in frontier || e.target in frontier) ::
      if e.source in frontier then e.target else e.source
  }

  /** A row with both ends in the frontier yields only its target; the end it
      drops is visited already, so nothing new is lost. */
  lemma CaseLosesNothing(es: set<Edge>, frontier: set<Id>, visited: set<Id>)
    requires frontier <= visited
    ensures RelatedIds(es, frontier) - visited == NeighboursOf(es, frontier) - visited
  {
    forall m | m in RelatedIds(es, frontier)
      ensures m in NeighboursOf(es, frontier)
    {
      var e :| e in es && (e.source in frontier || e.target in frontier)
        && m == if e.source in frontier then e.target else e.source;
      var x := if e.source in frontier then e.source else e.target;
      assert Touches(e, x) && m == OtherEnd(e, x);
      assert m in Neighbours(es, x);
    }
    forall m | m in NeighboursOf(es, frontier) && m !in visited
      ensures m in RelatedIds(es, frontier)
    {
      var x :| x in frontier && m in Neighbours(es, x);
      var e :| e in es && Touches(e, x) && m == OtherEnd(e, x);
      assert e.source in frontier || e.target in frontier;
      assert m == if e.source in frontier then e.target else e.source;
    }
  }

  /** `_find_related_memories`: exactly the non-seed memories at undirected
      distance at most `depth`; a negative depth finds none. */
  method FindRelated(table: Relationships, org: Id, seeds: set<Id>, depth: int) returns (related: set<Id>)
    ensures related !! seeds
    ensures forall m :: m in related <==>
      m !in seeds && depth >= 0 && Reaches(table, org, seeds, m, depth)
  {
    var es := OrgEdges(table, org);
    var visited, frontier := seeds, seeds;
    var i := 0;
    while i < depth && frontier != {}
      invariant 0 <= i && (depth >= 0 ==> i <= depth)
      invariant visited == Ball(es, seeds, i) && frontier == Sphere(es, seeds, i)
      invariant frontier <= visited
      invariant depth < 0 ==> i == 0
      decreases depth - i
    {
      CaseLosesNothing(es, frontier, visited);
      BallFromSphere(es, seeds, i);
      var neighbours := RelatedIds(es, frontier);
      frontier := neighbours - visited;
      visited := visited + frontier;
      i := i + 1;
    }
    related := visited - seeds;
    forall m | depth >= 0
      ensures m in visited <==> Reaches(table, org, seeds, m, depth)
    {
      if i < depth {
        BallStops(es, seeds, i, depth);
      }
      BallIsWithin(es, seeds, m, depth);
      ReachesIffWithin(table, org, seeds, m, depth);
    }
  }

  /** The i-th frontier of the search is exactly the memories at distance i. */
  lemma FrontierIsDistance(es: set<Edge>, seeds: set<Id>, i: nat, m: Id)
    ensures
      var visited, frontier := Ball(es, seeds, i), Sphere(es, seeds, i);
      && (m in frontier <==> AtDistance(es, seeds, m, i))
      && (m in RelatedIds(es, frontier) - visited <==> AtDistance(es, seeds, m, i + 1))
  {
    SphereIsDistance(es, seeds, m, i);
    SphereIsDistance(es, seeds, m, i + 1);
    BallFromSphere(es, seeds, i);
    CaseLosesNothing(es, Sphere(es, seeds, i), Ball(es, seeds, i));
  }

  datatype ForgetError = NoTarget
  datatype ForgetResult = Forgotten(deleted: nat, cascaded: nat, targets: set<Id>) | Failed(error: ForgetError)

  /** A row of memories; `deleted` says that deleted_at is set. */
  datatype MemoryRow = MemoryRow(org: Id, deleted: bool)

  type Memories = map<Id, MemoryRow>

  /** The tenant's targets that are not deleted yet. */
  function Live(memories: Memories, org: Id, targets: set<Id>): set<Id> {
    set m | m in memories && memories[m].org == org && m in targets && !memories[m].deleted
  }

  /** The memories once the tenant's live targets are marked deleted. */
  function Marked(memories: Memories, org: Id, targets: set<Id>): Memories {
    map m | m in memories :: if m in Live(memories, org, targets) then memories[m].(deleted := true) else memories[m]
  }

  /** Marking again finds nothing to mark. */
  lemma MarkedTwice(memories: Memories, org: Id, targets: set<Id>)
    ensures Marked(Marked(memories, org, targets), org, targets) == Marked(memories, org, targets)
    ensures Live(Marked(memories, org, targets), org, targets) == {}
  {
    var once := Marked(memories, org, targets);
    forall m ensures m !in Live(once, org, targets) {
      assert m in once ==> m in memories && once[m].org == memories[m].org;
    }
  }

  /** The rows of the tables that a forget can touch. */
  class Store {
    var memories: Memories
    var relationships: Relationships

    /** Foreign keys: both ends of a relationship exist. */
    ghost predicate Valid()
      reads this
    {
      forall id | id in relationships ::
        relationships[id].source in memories && relationships[id].target in memories
    }

    /** `_hard_delete`: relationships first, then memories, of one tenant.  The
        foreign keys cascade, so a relationship of another tenant that touches
        a deleted memory goes with it. */
    method HardDelete(org: Id, targets: set<Id>) returns (deleted: nat)
      requires Valid()
      modifies this
      ensures Valid()
      ensures forall m :: m in memories <==>
        m in old(memories) && !(old(memories)[m].org == org && m in targets)
      ensures forall m | m in memories :: memories[m] == old(memories)[m]
      ensures deleted == |old(memories).Keys| - |memories.Keys|
      ensures forall id :: id in relationships <==>
        && id in old(relationships)
        && var r := old(relationships)[id];
           && !(r.org == org && (r.source in targets || r.target in targets))
           && r.source in memories && r.target in memories
      ensures forall id | id in relationships :: relationships[id] == old(relationships)[id]
    {
      relationships := map id | id in relationships &&
        !(relationships[id].org == org && (relationships[id].source in targets || relationships[id].target in targets))
        :: relationships[id];
      var gone := set m | m in memories && memories[m].org == org && m in targets;
      var kept := map m | m in memories && !(memories[m].org == org && m in targets) :: memories[m];
      assert kept.Keys == memories.Keys - gone;
      deleted := |gone|;
      memories := kept;
      relationships := map id | id in relationships &&
        relationships[id].source in memories && relationships[id].target in memories
        :: relationships[id];
    }

    /** `_soft_delete`: the live targets of the tenant are marked, nothing else
        changes, and a memory already deleted is not counted again. */
    method SoftDelete(org: Id, targets: set<Id>) returns (deleted: nat)
      modifies this`memories
      ensures memories == Marked(old(memories), org, targets)
      ensures memories.Keys == old(memories).Keys
      ensures forall m | m in memories ::
        if old(memories)[m].org == org && m in targets
        then memories[m] == MemoryRow(org, true) else memories[m] == old(memories)[m]
      ensures deleted == |Live(old(memories), org, targets)|
      ensures forall m :: m in Live(old(memories), org, targets) <==>
        m in old(memories) && old(memories)[m] == MemoryRow(org, false) && m in targets
      ensures Live(memories, org, targets) == {}
    {
      MarkedTwice(memories, org, targets);
      deleted := |Live(memories, org, targets)|;
      memories := Marked(memories, org, targets);
    }

    /** `forget`: the targets are the named memories plus, when cascading, the ball
        of radius `depth` around them.  After a hard delete no relationship of the
        tenant mentions a target; a soft one leaves the relationships alone. */
    method Forget(org: Id, named: seq<Id>, cascade: bool, depth: int, hard: bool) returns (result: ForgetResult)
      requires Valid()
      modifies this
      ensures Valid()
      ensures named == [] ==> result == Failed(NoTarget) && unchanged(this)
      ensures named != [] ==>
        && result.Forgotten?
        && IsTargets(old(relationships), org, Ids(named), cascade, depth, result.targets)
        && result.cascaded == |result.targets - Ids(named)|
      ensures named != [] && hard ==>
        && (forall m :: m in memories <==>
              m in old(memories) && !(old(memories)[m].org == org && m in result.targets))
        && (forall m | m in memories :: memories[m] == old(memories)[m])
        && result.deleted == |old(memories).Keys| - |memories.Keys|
        && forall id | id in relationships && relationships[id].org == org ::
             relationships[id].source !in result.targets && relationships[id].target !in result.targets
      ensures named != [] && !hard ==>
        && memories.Keys == old(memories).Keys
        && (forall m | m in memories ::
              if old(memories)[m].org == org && m in result.targets
              then memories[m] == MemoryRow(org, true) else memories[m] == old(memories)[m])
        && result.deleted
          == |set m | m in old(memories) && old(memories)[m] == MemoryRow(org, false) && m in result.targets|
        && relationships == old(relationships)
    {
      if named == [] {
        return Failed(NoTarget);
      }
      var targets, cascaded := CollectTargets(relationships, org, Ids(named), cascade, depth);
      var deleted;
      if hard {
        deleted := HardDelete(org, targets);
      } else {
        ghost var before := memories;
        deleted := SoftDelete(org, targets);
        assert Live(before, org, targets)
          == set m | m in before && before[m] == MemoryRow(org, false) && m in targets;
      }
      result := Forgotten(deleted, cascaded, targets);
    }
  }

  ghost predicate IsTargets(
      table: Relationships, org: Id, named: set<Id>, cascade: bool, depth: int, targets: set<Id>)
  {
    forall m :: m in targets <==>
      m in named || (cascade && depth >= 0 && Reaches(table, org, named, m, depth))
  }

  method CollectTargets(table: Relationships, org: Id, named: set<Id>, cascade: bool, depth: int)
    returns (targets: set<Id>, cascaded: nat)
    ensures IsTargets(table, org, named, cascade, depth, targets)
    ensures cascaded == |targets - named|
  {
    targets, cascaded := named, 0;
    assert named - named == {};
    if cascade {
      var related := FindRelated(table, org, named, depth);
      cascaded := |related|;
      targets := targets + related;
      assert targets - named == related;
    }
  }

  function Ids(named: seq<Id>): set<Id> {
    set x | x in named
  }
}
