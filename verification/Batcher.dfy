/** The coalescing `recall_count` batcher (`engine/recall_batch.py`) run without
    interruption, and the inline update it replaces (`engine/recall.py`). */
module Batcher {
  import opened Graph

  datatype Key = Key(org: Id, memory: Id)

  /** `_pending`, a snapshot of it, or the recall_count column. */
  type Deltas = map<Key, nat>

  /** A defaultdict(int) lookup. */
  function Get(m: Deltas, k: Key): nat {
    if k in m then m[k] else 0
  }

  function Count(ids: seq<Id>, memory: Id): nat {
    multiset(ids)[memory]
  }

  lemma CountLast(ids: seq<Id>, memory: Id)
    requires ids != []
    ensures Count(ids, memory) == Count(ids[..|ids| - 1], memory) + if ids[|ids| - 1] == memory then 1 else 0
  {
    assert ids == ids[..|ids| - 1] + [ids[|ids| - 1]];
  }

  /** One `_pending[(org, id)] += 1` per list entry. */
  function Bumped(m: Deltas, org: Id, ids: seq<Id>): Deltas {
    if ids == [] then m
    else
      var front, k := Bumped(m, org, ids[..|ids| - 1]), Key(org, ids[|ids| - 1]);
      front[k := Get(front, k) + 1]
  }

  /** A key gains as many as the list has copies of it. */
  lemma {:induction false} BumpedCounts(m: Deltas, org: Id, ids: seq<Id>, k: Key)
    ensures Get(Bumped(m, org, ids), k) == Get(m, k) + if k.org == org then Count(ids, k.memory) else 0
    decreases |ids|
  {
    if ids != [] {
      BumpedCounts(m, org, ids[..|ids| - 1], k);
      CountLast(ids, k.memory);
    }
  }

  /** UPDATE memories ... FROM unnest(ids, deltas), in the context of one tenant:
      only its existing memories change. */
  function Credit(m: Deltas, f: Deltas, org: Id): Deltas {
    map k | k in m :: m[k] + if k.org == org then Get(f, k) else 0
  }

  function Without(f: Deltas, org: Id): Deltas {
    map k | k in f && k.org != org :: f[k]
  }

  /** What a whole flush adds when the updates of the `failing` tenants are lost. */
  function Flushed(m: Deltas, f: Deltas, failing: set<Id>): Deltas {
    map k | k in m :: m[k] + if k.org in failing then 0 else Get(f, k)
  }

  /** A part of a snapshot: the entries of one tenant, without the tenant. */
  type OrgDeltas = map<Id, nat>

  ghost predicate Grouped(perOrg: map<Id, OrgDeltas>, snapshot: Deltas, keys: set<Key>) {
    && (forall org, id | org in perOrg && id in perOrg[org] ::
        Key(org, id) in keys && Key(org, id) in snapshot && perOrg[org][id] == snapshot[Key(org, id)])
    && (forall k | k in keys :: k.org in perOrg && k.memory in perOrg[k.org])
  }

  /** `per_org[org][memory] = delta` */
  function Placed(perOrg: map<Id, OrgDeltas>, k: Key, delta: nat): map<Id, OrgDeltas> {
    var deltas := if k.org in perOrg then perOrg[k.org] else map[];
    perOrg[k.org := deltas[k.memory := delta]]
  }

  lemma PlacedStaysGrouped(perOrg: map<Id, OrgDeltas>, snapshot: Deltas, keys: set<Key>, k: Key)
    requires Grouped(perOrg, snapshot, keys) && k in snapshot
    ensures Grouped(Placed(perOrg, k, snapshot[k]), snapshot, keys + {k})
  {
    var after := Placed(perOrg, k, snapshot[k]);
    forall org, id | org in after && id in after[org]
      ensures Key(org, id) in keys + {k} && Key(org, id) in snapshot && after[org][id] == snapshot[Key(org, id)]
    {
      if Key(org, id) != k {
        assert org in perOrg && id in perOrg[org] && after[org][id] == perOrg[org][id];
      }
    }
  }

  function Added(m: Deltas, org: Id, deltas: OrgDeltas): Deltas {
    map k | k in m :: m[k] + if k.org == org && k.memory in deltas then deltas[k.memory] else 0
  }

  lemma GroupIsCredit(m: Deltas, snapshot: Deltas, perOrg: map<Id, OrgDeltas>, org: Id)
    requires Grouped(perOrg, snapshot, snapshot.Keys) && org in perOrg
    ensures Added(m, org, perOrg[org]) == Credit(m, snapshot, org)
  {
    forall k | k in m && k.org == org
      ensures (if k.memory in perOrg[org] then perOrg[org][k.memory] else 0) == Get(snapshot, k)
    {
      assert k == Key(org, k.memory);
    }
  }

  lemma FlushOneMore(m: Deltas, f: Deltas, failing: set<Id>, todo: set<Id>, org: Id)
    requires org in todo
    ensures
      var before, after := Flushed(m, f, failing + todo), Flushed(m, f, failing + (todo - {org}));
      after == if org in failing then before else Credit(before, f, org)
  {
  }

  function Inline(m: Deltas, org: Id, ids: seq<Id>): Deltas {
    map k | k in m :: m[k] + if k.org == org && k.memory in ids then 1 else 0
  }

  class MemoryTable {
    var recallCount: Deltas

    /** The UPDATE of one tenant. */
    method AddDeltas(org: Id, deltas: OrgDeltas)
      modifies this
      ensures recallCount == Added(old(recallCount), org, deltas)
    {
      recallCount := Added(recallCount, org, deltas);
    }

    /** The update `recall` runs when nothing batches: an IN list adds one to each
        row it matches, however often the id is listed. */
    method BumpInline(org: Id, ids: seq<Id>)
      modifies this
      ensures recallCount == Inline(old(recallCount), org, ids)
      ensures recallCount.Keys == old(recallCount).Keys
      ensures forall k | k in recallCount ::
        recallCount[k] - old(recallCount)[k] == if k.org == org && Count(ids, k.memory) >= 1 then 1 else 0
    {
      recallCount := Inline(recallCount, org, ids);
    }
  }

  class RecallCountBatcher {
    var pending: Deltas
    var closed: bool

    constructor ()
      ensures pending == map[] && !closed
    {
      pending, closed := map[], false;
    }

    /** `bump` */
    method Bump(org: Id, ids: seq<Id>)
      modifies this`pending
      ensures pending == if closed then old(pending) else Bumped(old(pending), org, ids)
      ensures forall k ::
        (if k in pending then pending[k] else 0)
          == (if k in old(pending) then old(pending)[k] else 0)
             + (if !closed && k.org == org then multiset(ids)[k.memory] else 0)
    {
      if closed {
        return;
      }
      ghost var before := pending;
      forall k { BumpedCounts(before, org, ids, k); }
      for i := 0 to |ids|
        invariant pending == Bumped(before, org, ids[..i])
      {
        assert ids[..i + 1][..i] == ids[..i];
        pending := pending[Key(org, ids[i]) := Get(pending, Key(org, ids[i])) + 1];
      }
      assert ids[..|ids|] == ids;
    }

    /** The close flag of `aclose` */
    method Close()
      modifies this`closed
      ensures closed
    {
      closed := true;
    }

    /** `_flush_once`, with the tenants whose update raises. */
    method FlushOnce(table: MemoryTable, failing: set<Id>)
      modifies this`pending, table
      ensures pending == map[]
      ensures table.recallCount == Flushed(old(table.recallCount), old(pending), failing)
      ensures table.recallCount.Keys == old(table.recallCount).Keys
      ensures forall k | k in table.recallCount ::
        table.recallCount[k] - old(table.recallCount)[k]
          == if k.org !in failing && k in old(pending) then old(pending)[k] else 0
    {
      if pending == map[] {
        return;
      }
      var snapshot := pending;
      pending := map[];
      var perOrg := GroupByOrg(snapshot);
      ghost var before := table.recallCount;
      assert forall k | k in snapshot :: k.org in perOrg;
      assert table.recallCount == Flushed(before, snapshot, failing + perOrg.Keys);
      var todo := perOrg.Keys;
      while todo != {}
        invariant todo <= perOrg.Keys && pending == map[]
        invariant table.recallCount == Flushed(before, snapshot, failing + todo)
        decreases todo
      {
        var org :| org in todo;
        FlushOneMore(before, snapshot, failing, todo, org);
        if org !in failing {
          GroupIsCredit(table.recallCount, snapshot, perOrg, org);
          table.AddDeltas(org, perOrg[org]);
        }
        todo := todo - {org};
      }
      assert failing + {} == failing;
    }

    /** The grouping loop of `_flush_once` */
    method GroupByOrg(snapshot: Deltas) returns (perOrg: map<Id, OrgDeltas>)
      ensures Grouped(perOrg, snapshot, snapshot.Keys)
    {
      perOrg := map[];
      var todo := snapshot.Keys;
      ghost var done: set<Key> := {};
      while todo != {}
        invariant done + todo == snapshot.Keys && Grouped(perOrg, snapshot, done)
        decreases todo
      {
        var k :| k in todo;
        PlacedStaysGrouped(perOrg, snapshot, done, k);
        perOrg := Placed(perOrg, k, snapshot[k]);
        done := done + {k};
        todo := todo - {k};
      }
      assert done == snapshot.Keys;
    }
  }
}
