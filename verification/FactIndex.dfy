/** The insertion-ordered dict that `DistillResult.merge` keeps per kind of fact
    (`distill/schemas.py`), as the list of its values: overwriting a key keeps
    its place, a new key goes to the end. */
module FactIndex {

  datatype Fact =
    | Entity(name: string, kind: string, description: string, aliases: seq<string>, confidence: real)
    | Relationship(source: string, target: string, predicate_: string, description: string, confidence: real)
    | Triplet(subject: string, predicate_: string, obj: string, confidence: real)

  datatype Key =
    | EntityKey(name: string, kind: string)
    | RelationshipKey(source: string, predicate_: string, target: string)
    | TripletKey(subject: string, predicate_: string, obj: string)

  /** The deduplication key of a fact; `lower` is str.lower. */
  function KeyOf(lower: string -> string): Fact -> Key {
    (f: Fact) =>
      match f
      case Entity(name, kind, _, _, _) => EntityKey(lower(name), lower(kind))
      case Relationship(source, target, predicate_, _, _) =>
        RelationshipKey(lower(source), lower(predicate_), lower(target))
      case Triplet(subject, predicate_, obj, _) => TripletKey(lower(subject), lower(predicate_), lower(obj))
  }

  /** Which facts are copies of each other: facts of one kind that agree, up to case, on
      the name and type of an entity, or on the three parts of the others. */
  lemma SameKeyIff(lower: string -> string, f: Fact, g: Fact)
    ensures KeyOf(lower)(f) == KeyOf(lower)(g) <==>
      || (f.Entity? && g.Entity? && lower(f.name) == lower(g.name) && lower(f.kind) == lower(g.kind))
      || (f.Relationship? && g.Relationship? && lower(f.source) == lower(g.source)
          && lower(f.predicate_) == lower(g.predicate_) && lower(f.target) == lower(g.target))
      || (f.Triplet? && g.Triplet? && lower(f.subject) == lower(g.subject)
          && lower(f.predicate_) == lower(g.predicate_) && lower(f.obj) == lower(g.obj))
  {
  }

  // ----- the dict

  /** The place of a key, or -1. */
  function Find(key: Fact -> Key, index: seq<Fact>, k: Key): (i: int)
    ensures -1 <= i < |index|
    ensures i >= 0 ==> key(index[i]) == k
    ensures i < 0 ==> forall j | 0 <= j < |index| :: key(index[j]) != k
  {
    if index == [] then -1
    else if key(index[|index| - 1]) == k then |index| - 1
    else Find(key, index[..|index| - 1], k)
  }

  /** index[key] = f */
  function Put(key: Fact -> Key, index: seq<Fact>, f: Fact): seq<Fact> {
    var i := Find(key, index, key(f));
    if i < 0 then index + [f] else index[i := f]
  }

  /** The same, unless the copy that is there is at least as confident. */
  function PutBetter(key: Fact -> Key, index: seq<Fact>, f: Fact): seq<Fact> {
    var i := Find(key, index, key(f));
    if i < 0 || f.confidence > index[i].confidence then Put(key, index, f) else index
  }

  /** The dict comprehension over one result's own facts: the last copy wins. */
  function Dedup(key: Fact -> Key, facts: seq<Fact>): seq<Fact> {
    if facts == [] then [] else Put(key, Dedup(key, facts[..|facts| - 1]), facts[|facts| - 1])
  }

  /** The loop over the other result's facts. */
  function Absorb(key: Fact -> Key, index: seq<Fact>, facts: seq<Fact>): seq<Fact> {
    if facts == [] then index
    else PutBetter(key, Absorb(key, index, facts[..|facts| - 1]), facts[|facts| - 1])
  }

  function Merged(key: Fact -> Key, mine: seq<Fact>, theirs: seq<Fact>): seq<Fact> {
    Absorb(key, Dedup(key, mine), theirs)
  }

  method MergeFacts(key: Fact -> Key, mine: seq<Fact>, theirs: seq<Fact>) returns (index: seq<Fact>)
    ensures index == Merged(key, mine, theirs)
  {
    index := [];
    for i := 0 to |mine|
      invariant index == Dedup(key, mine[..i])
    {
      assert mine[..i + 1][..i] == mine[..i];
      index := Put(key, index, mine[i]);
    }
    assert mine[..|mine|] == mine;
    for i := 0 to |theirs|
      invariant index == Absorb(key, Dedup(key, mine), theirs[..i])
    {
      assert theirs[..i + 1][..i] == theirs[..i];
      var at := Find(key, index, key(theirs[i]));
      if at < 0 || theirs[i].confidence > index[at].confidence {
        index := Put(key, index, theirs[i]);
      }
    }
    assert theirs[..|theirs|] == theirs;
  }

  // ----- what a merge should keep

  predicate DistinctKeys(key: Fact -> Key, facts: seq<Fact>) {
    forall i, j | 0 <= i < j < |facts| :: key(facts[i]) != key(facts[j])
  }

  /** The keys in the order of their first appearance. */
  function Keys(key: Fact -> Key, facts: seq<Fact>): seq<Key> {
    if facts == [] then []
    else
      var front, k := Keys(key, facts[..|facts| - 1]), key(facts[|facts| - 1]);
      if k in front then front else front + [k]
  }

  /** The copy at `p` is the leftmost of the most confident copies of its key. */
  predicate Winner(key: Fact -> Key, facts: seq<Fact>, p: nat)
    requires p < |facts|
  {
    forall q | 0 <= q < |facts| && key(facts[q]) == key(facts[p]) ::
      if q < p then facts[q].confidence < facts[p].confidence else facts[q].confidence <= facts[p].confidence
  }

  ghost predicate HasWinner(key: Fact -> Key, facts: seq<Fact>, f: Fact) {
    exists p :: 0 <= p < |facts| && Winner(key, facts, p) && facts[p] == f
  }

  /** `kept` has one fact per key, in order of first appearance: its winner. */
  ghost predicate KeepsBest(key: Fact -> Key, facts: seq<Fact>, kept: seq<Fact>) {
    && |kept| == |Keys(key, facts)|
    && (forall i | 0 <= i < |kept| :: key(kept[i]) == Keys(key, facts)[i])
    && (forall i | 0 <= i < |kept| :: HasWinner(key, facts, kept[i]))
  }

  /** Absorbing everything into an empty dict. */
  function Best(key: Fact -> Key, facts: seq<Fact>): seq<Fact> {
    Absorb(key, [], facts)
  }

  lemma {:induction false} KeysAreDistinct(key: Fact -> Key, facts: seq<Fact>)
    ensures forall i, j | 0 <= i < j < |Keys(key, facts)| :: Keys(key, facts)[i] != Keys(key, facts)[j]
    ensures forall p | 0 <= p < |facts| :: key(facts[p]) in Keys(key, facts)
    decreases |facts|
  {
    if facts != [] {
      var front := facts[..|facts| - 1];
      KeysAreDistinct(key, front);
      assert forall p | 0 <= p < |front| :: facts[p] == front[p];
    }
  }

  /** The winner of a longer list: the new copy if it is better than the winner so
      far, else that one. */
  lemma WinnerStep(key: Fact -> Key, front: seq<Fact>, f: Fact, p: nat)
    requires p < |front| && Winner(key, front, p)
    ensures
      var facts := front + [f];
      && (Winner(key, facts, p) <==> !(key(f) == key(front[p]) && f.confidence > front[p].confidence))
      && (Winner(key, facts, |front|) <== key(f) == key(front[p]) && f.confidence > front[p].confidence)
  {
    var facts := front + [f];
    if key(f) == key(front[p]) && f.confidence > front[p].confidence {
      assert facts[|front|] == f && facts[p] == front[p];
      forall q | 0 <= q < |facts| && key(facts[q]) == key(f)
        ensures if q < |front| then facts[q].confidence < f.confidence else facts[q].confidence <= f.confidence
      {
        if q < |front| {
          assert facts[q] == front[q] && key(front[q]) == key(front[p]);
        }
      }
    } else {
      forall q | 0 <= q < |facts| && key(facts[q]) == key(facts[p])
        ensures if q < p then facts[q].confidence < facts[p].confidence else facts[q].confidence <= facts[p].confidence
      {
        if q < |front| {
          assert facts[q] == front[q] && key(front[q]) == key(front[p]);
        }
      }
    }
  }

  lemma KeptStep(key: Fact -> Key, front: seq<Fact>, f: Fact, b: Fact)
    requires HasWinner(key, front, b)
    ensures HasWinner(key, front + [f], if key(f) == key(b) && f.confidence > b.confidence then f else b)
  {
    var p :| 0 <= p < |front| && Winner(key, front, p) && front[p] == b;
    WinnerStep(key, front, f, p);
    var facts := front + [f];
    assert facts[p] == b && facts[|front|] == f;
  }

  lemma NewKeyWins(key: Fact -> Key, front: seq<Fact>, f: Fact)
    requires forall q | 0 <= q < |front| :: key(front[q]) != key(f)
    ensures HasWinner(key, front + [f], f)
  {
    var facts := front + [f];
    assert forall q | 0 <= q < |front| :: facts[q] == front[q];
    assert Winner(key, facts, |front|) && facts[|front|] == f;
  }

  /** Absorbing keeps the leftmost most confident copy of each key, in the order of
      first appearance. */
  lemma {:induction false} BestKeepsBest(key: Fact -> Key, facts: seq<Fact>)
    ensures KeepsBest(key, facts, Best(key, facts))
    decreases |facts|
  {
    if facts != [] {
      var front, f := facts[..|facts| - 1], facts[|facts| - 1];
      BestKeepsBest(key, front);
      assert facts == front + [f];
      PutKeepsBest(key, front, f, Best(key, front));
    }
  }

  lemma PutKeepsBest(key: Fact -> Key, front: seq<Fact>, f: Fact, kept: seq<Fact>)
    requires KeepsBest(key, front, kept)
    ensures KeepsBest(key, front + [f], PutBetter(key, kept, f))
  {
    var facts, after, i := front + [f], PutBetter(key, kept, f), Find(key, kept, key(f));
    assert facts[..|facts| - 1] == front;
    KeysAreDistinct(key, front);
    if i < 0 {
      NewKeyWins(key, front, f);
    } else {
      assert Keys(key, front)[i] == key(f);
    }
    forall j | 0 <= j < |after| ensures HasWinner(key, facts, after[j]) {
      if j < |kept| {
        assert HasWinner(key, front, kept[j]);
        KeptStep(key, front, f, kept[j]);
        assert key(kept[j]) == key(f) ==> i == j;
      }
    }
  }

  lemma OneWinner(key: Fact -> Key, facts: seq<Fact>, p: nat, q: nat)
    requires p < |facts| && q < |facts| && key(facts[p]) == key(facts[q])
    requires Winner(key, facts, p) && Winner(key, facts, q)
    ensures p == q
  {
  }

  /** and nothing else does. */
  lemma BestIsOnly(key: Fact -> Key, facts: seq<Fact>, kept: seq<Fact>)
    requires KeepsBest(key, facts, kept)
    ensures kept == Best(key, facts)
  {
    var best := Best(key, facts);
    BestKeepsBest(key, facts);
    forall i | 0 <= i < |kept| ensures kept[i] == best[i] {
      var p :| 0 <= p < |facts| && Winner(key, facts, p) && facts[p] == kept[i];
      var q :| 0 <= q < |facts| && Winner(key, facts, q) && facts[q] == best[i];
      OneWinner(key, facts, p, q);
    }
  }
}
