/** Per-chunk results and their merge (`distill/schemas.py`, `distill/extract.py`). */
module DistillMerge {
  import opened FactIndex
  import opened FactMerge

  datatype Source = NoSource | Memory(id: string)

  /** chunk_index, char_start and char_end. */
  datatype Span = NoSpan | Chunk(index: nat, charStart: nat, charEnd: nat)

  datatype DistillResult = DistillResult(
    entities: seq<Fact>, relationships: seq<Fact>, triplets: seq<Fact>,
    summary: string, source: Source, span: Span, model: string)

  /** Python's `a or b` on strings. */
  function Or(a: string, b: string): string {
    if a != "" then a else b
  }

  /** `DistillResult.merge` on values. */
  function Merge(key: Fact -> Key, a: DistillResult, b: DistillResult): DistillResult {
    DistillResult(
      Merged(key, a.entities, b.entities), Merged(key, a.relationships, b.relationships),
      Merged(key, a.triplets, b.triplets),
      Or(a.summary, b.summary), a.source, a.span, Or(a.model, b.model))
  }

  /** `merge` */
  method MergeResults(lower: string -> string, a: DistillResult, b: DistillResult) returns (r: DistillResult)
    ensures r == Merge(KeyOf(lower), a, b)
    ensures r.entities == Merged(KeyOf(lower), a.entities, b.entities)
    ensures r.relationships == Merged(KeyOf(lower), a.relationships, b.relationships)
    ensures r.triplets == Merged(KeyOf(lower), a.triplets, b.triplets)
    ensures r.summary == if a.summary == "" then b.summary else a.summary
    ensures r.model == if a.model == "" then b.model else a.model
    ensures r.source == a.source && r.span == a.span
  {
    var entities := MergeFacts(KeyOf(lower), a.entities, b.entities);
    var relationships := MergeFacts(KeyOf(lower), a.relationships, b.relationships);
    var triplets := MergeFacts(KeyOf(lower), a.triplets, b.triplets);
    r := DistillResult(entities, relationships, triplets, Or(a.summary, b.summary), a.source, a.span,
      Or(a.model, b.model));
  }

  // ----- the fold

  /** Merging from the left. */
  function Fold(key: Fact -> Key, first: DistillResult, rest: seq<DistillResult>): DistillResult {
    if rest == [] then first else Merge(key, Fold(key, first, rest[..|rest| - 1]), rest[|rest| - 1])
  }

  /** The merging half of `extract_from_chunks`, given what each chunk gave. */
  method ExtractFromChunks(lower: string -> string, perChunk: seq<DistillResult>, source: Source, model: string)
    returns (r: DistillResult)
    ensures perChunk == [] ==> r == DistillResult([], [], [], "", source, NoSpan, model)
    ensures perChunk != [] ==>
        r == Fold(KeyOf(lower), perChunk[0], perChunk[1..]).(source := source, span := NoSpan, model := model)
  {
    if perChunk == [] {
      return DistillResult([], [], [], "", source, NoSpan, model);
    }
    var merged, rest := perChunk[0], perChunk[1..];
    for i := 0 to |rest|
      invariant merged == Fold(KeyOf(lower), perChunk[0], rest[..i])
    {
      assert rest[..i + 1][..i] == rest[..i];
      merged := MergeResults(lower, merged, rest[i]);
    }
    assert rest[..|rest|] == rest;
    r := merged.(source := source, span := NoSpan, model := model);
  }

  // ----- what the fold keeps

  datatype Part = Entities | Relationships | Triplets

  function Facts(r: DistillResult, part: Part): seq<Fact> {
    match part
    case Entities => r.entities
    case Relationships => r.relationships
    case Triplets => r.triplets
  }

  function AllFacts(results: seq<DistillResult>, part: Part): seq<Fact> {
    if results == [] then [] else AllFacts(results[..|results| - 1], part) + Facts(results[|results| - 1], part)
  }

  function FirstSummary(results: seq<DistillResult>): string {
    if results == [] then "" else Or(FirstSummary(results[..|results| - 1]), results[|results| - 1].summary)
  }

  function FirstModel(results: seq<DistillResult>): string {
    if results == [] then "" else Or(FirstModel(results[..|results| - 1]), results[|results| - 1].model)
  }

  /** The first summary given is kept, and the first model name. */
  lemma {:induction false} FirstGiven(results: seq<DistillResult>, i: nat)
    requires i <= |results|
    ensures (forall j | 0 <= j < i :: results[j].summary == "") && (i < |results| ==> results[i].summary != "") ==>
      FirstSummary(results) == if i < |results| then results[i].summary else ""
    ensures (forall j | 0 <= j < i :: results[j].model == "") && (i < |results| ==> results[i].model != "") ==>
      FirstModel(results) == if i < |results| then results[i].model else ""
    decreases |results|
  {
    if results != [] {
      var front := results[..|results| - 1];
      FirstGiven(front, if i < |front| then i else |front|);
      if i < |front| {
        assert front[i] == results[i];
      }
    }
  }

  /** `kept` is, part by part, the one list with the leftmost most confident copy
      of each key of all the facts, keys in the order of their first appearance. */
  ghost predicate KeepsAllBest(key: Fact -> Key, results: seq<DistillResult>, kept: DistillResult) {
    && (forall part :: KeepsBest(key, AllFacts(results, part), Facts(kept, part)))
    && kept.summary == FirstSummary(results)
  }

  ghost predicate EndsWithBest(key: Fact -> Key, r: DistillResult) {
    forall part :: LastIsBest(key, Facts(r, part))
  }

  ghost predicate AllDistinct(key: Fact -> Key, r: DistillResult) {
    forall part :: DistinctKeys(key, Facts(r, part))
  }

  lemma MergeByPart(key: Fact -> Key, a: DistillResult, b: DistillResult, part: Part)
    ensures Facts(Merge(key, a, b), part) == Merged(key, Facts(a, part), Facts(b, part))
  {
  }

  /** Two or more chunks: everything after the first is absorbed in order. */
  lemma {:induction false} FoldAbsorbs(key: Fact -> Key, first: DistillResult, rest: seq<DistillResult>, part: Part)
    requires rest != []
    ensures Facts(Fold(key, first, rest), part) == Absorb(key, Dedup(key, Facts(first, part)), AllFacts(rest, part))
    decreases |rest|
  {
    var front, last := rest[..|rest| - 1], rest[|rest| - 1];
    AllNext(rest, part);
    MergeByPart(key, Fold(key, first, front), last, part);
    if front == [] {
      assert AllFacts(front, part) + Facts(last, part) == Facts(last, part);
    } else {
      FoldAbsorbs(key, first, front, part);
      AbsorbMore(key, Facts(first, part), AllFacts(front, part), Facts(last, part));
    }
  }

  lemma AllNext(results: seq<DistillResult>, part: Part)
    requires results != []
    ensures AllFacts(results, part) == AllFacts(results[..|results| - 1], part) + Facts(results[|results| - 1], part)
  {
  }

  /** The dict of a merge has nothing left to deduplicate. */
  lemma {:induction false} AbsorbMore(key: Fact -> Key, mine: seq<Fact>, b: seq<Fact>, c: seq<Fact>)
    ensures Merged(key, Absorb(key, Dedup(key, mine), b), c) == Absorb(key, Dedup(key, mine), b + c)
  {
    DedupDistinct(key, mine);
    AbsorbDistinct(key, Dedup(key, mine), b);
    DistinctIsKept(key, Absorb(key, Dedup(key, mine), b));
    AbsorbConcat(key, Dedup(key, mine), b, c);
  }

  lemma {:induction false} FoldSummary(key: Fact -> Key, first: DistillResult, rest: seq<DistillResult>)
    ensures Fold(key, first, rest).summary == FirstSummary([first] + rest)
    decreases |rest|
  {
    if rest == [] {
      assert [first] + rest == [first] && [first][..0] == [];
    } else {
      FoldSummary(key, first, rest[..|rest| - 1]);
      assert ([first] + rest)[..|rest|] == [first] + rest[..|rest| - 1];
    }
  }

  lemma {:induction false} AllConcat(a: seq<DistillResult>, b: seq<DistillResult>, part: Part)
    ensures AllFacts(a + b, part) == AllFacts(a, part) + AllFacts(b, part)
    decreases |b|
  {
    if b == [] {
      assert a + b == a;
    } else {
      var front, last := b[..|b| - 1], Facts(b[|b| - 1], part);
      AllConcat(a, front, part);
      assert (a + b)[..|a + b| - 1] == a + front;
      assert AllFacts(a + b, part) == AllFacts(a, part) + AllFacts(front, part) + last;
    }
  }

  lemma AllOfOne(r: DistillResult, part: Part)
    ensures AllFacts([r], part) == Facts(r, part)
  {
    assert AllFacts([r][..0], part) == [];
    assert [] + Facts(r, part) == Facts(r, part);
  }

  /** Folding two or more results keeps the best copies, whatever comes after the
      first result, exactly when the first result's last copies are its best. */
  lemma FoldKeepsBestIff(key: Fact -> Key, first: DistillResult)
    ensures
      (forall rest | rest != [] :: KeepsAllBest(key, [first] + rest, Fold(key, first, rest)))
        <==> EndsWithBest(key, first)
  {
    if EndsWithBest(key, first) {
      forall rest: seq<DistillResult> | rest != []
        ensures KeepsAllBest(key, [first] + rest, Fold(key, first, rest))
      {
        FoldKeepsBest(key, first, rest);
      }
    }
    if forall rest | rest != [] :: KeepsAllBest(key, [first] + rest, Fold(key, first, rest)) {
      var empty := DistillResult([], [], [], "", NoSource, NoSpan, "");
      assert KeepsAllBest(key, [first] + [empty], Fold(key, first, [empty]));
      forall part ensures LastIsBest(key, Facts(first, part)) {
        EmptyAfter(key, first, empty, part);
        OnlyDedup(key, Facts(first, part));
      }
    }
  }

  lemma {:induction false} EmptyAfter(key: Fact -> Key, first: DistillResult, empty: DistillResult, part: Part)
    requires Facts(empty, part) == []
    ensures Facts(Fold(key, first, [empty]), part) == Dedup(key, Facts(first, part))
    ensures AllFacts([first] + [empty], part) == Facts(first, part)
  {
    FoldAbsorbs(key, first, [empty], part);
    AllConcat([first], [empty], part);
    AllOfOne(first, part);
    AllOfOne(empty, part);
  }

  lemma OnlyDedup(key: Fact -> Key, facts: seq<Fact>)
    requires KeepsBest(key, facts, Dedup(key, facts))
    ensures LastIsBest(key, facts)
  {
    BestIsOnly(key, facts, Dedup(key, facts));
    DedupIsBestIff(key, facts);
  }

  lemma {:induction false} FoldKeepsBest(key: Fact -> Key, first: DistillResult, rest: seq<DistillResult>)
    requires rest != [] && EndsWithBest(key, first)
    ensures KeepsAllBest(key, [first] + rest, Fold(key, first, rest))
  {
    FoldSummary(key, first, rest);
    forall part
      ensures KeepsBest(key, AllFacts([first] + rest, part), Facts(Fold(key, first, rest), part))
    {
      var mine, theirs := Facts(first, part), AllFacts(rest, part);
      FoldAbsorbs(key, first, rest, part);
      AllConcat([first], rest, part);
      AllOfOne(first, part);
      DedupIsBestIff(key, mine);
      AbsorbConcat(key, [], mine, theirs);
      BestKeepsBest(key, mine + theirs);
    }
  }

  /** A single result is returned as it is, copies and all. */
  lemma SingleKeepsBestIff(key: Fact -> Key, only: DistillResult)
    ensures KeepsAllBest(key, [only], Fold(key, only, [])) <==> AllDistinct(key, only)
  {
    FoldSummary(key, only, []);
    assert [only] + [] == [only];
    forall part
      ensures KeepsBest(key, AllFacts([only], part), Facts(only, part)) <==> DistinctKeys(key, Facts(only, part))
    {
      AllOfOne(only, part);
      SingleListIff(key, Facts(only, part));
    }
  }

  /** It happens: two copies of an entity in the only chunk are both returned. */
  lemma SingleKeepsBothCopies(key: Fact -> Key, f: Fact)
    ensures
      var only := DistillResult([f, f], [], [], "", NoSource, NoSpan, "");
      Fold(key, only, []).entities == [f, f] && !KeepsAllBest(key, [only], Fold(key, only, []))
  {
    var only := DistillResult([f, f], [], [], "", NoSource, NoSpan, "");
    SingleKeepsBestIff(key, only);
    assert Facts(only, Entities)[0] == Facts(only, Entities)[1];
    assert !DistinctKeys(key, Facts(only, Entities));
  }

  lemma SingleListIff(key: Fact -> Key, facts: seq<Fact>)
    ensures KeepsBest(key, facts, facts) <==> DistinctKeys(key, facts)
  {
    if KeepsBest(key, facts, facts) {
      BestIsOnly(key, facts, facts);
      AbsorbDistinct(key, [], facts);
    }
    if DistinctKeys(key, facts) {
      DistinctIsKept(key, facts);
      BestKeepsBest(key, facts);
    }
  }

  // ----- any bracketing

  /** One way to merge a list of results pairwise. */
  datatype Bracketing = Leaf(result: DistillResult) | Pair(left: Bracketing, right: Bracketing)

  function Leaves(t: Bracketing): seq<DistillResult> {
    match t
    case Leaf(r) => [r]
    case Pair(l, r) => Leaves(l) + Leaves(r)
  }

  function Value(key: Fact -> Key, t: Bracketing): DistillResult {
    match t
    case Leaf(r) => r
    case Pair(l, r) => Merge(key, Value(key, l), Value(key, r))
  }

  /** Merging the best copies of two lists gives the best copies of both. */
  lemma MergeOfBest(key: Fact -> Key, a: seq<Fact>, b: seq<Fact>)
    ensures Merged(key, Best(key, a), Best(key, b)) == Best(key, a + b)
  {
    AbsorbDistinct(key, [], a);
    DistinctIsKept(key, Best(key, a));
    AbsorbBest(key, Best(key, a), b);
    AbsorbConcat(key, [], a, b);
  }

  /** However results with distinct keys are paired up, the merge keeps the best
      copies of all of them. */
  lemma {:induction false} BracketingKeepsBest(key: Fact -> Key, t: Bracketing, part: Part)
    requires forall r | r in Leaves(t) :: AllDistinct(key, r)
    ensures Facts(Value(key, t), part) == Best(key, AllFacts(Leaves(t), part))
    decreases t
  {
    match t
    case Leaf(r) =>
      assert r in Leaves(t);
      AllOfOne(r, part);
      DistinctIsKept(key, Facts(r, part));
    case Pair(left, right) =>
      BracketingKeepsBest(key, left, part);
      BracketingKeepsBest(key, right, part);
      AllConcat(Leaves(left), Leaves(right), part);
      MergeByPart(key, Value(key, left), Value(key, right), part);
      MergeOfBest(key, AllFacts(Leaves(left), part), AllFacts(Leaves(right), part));
  }

  lemma {:induction false} FirstConcat(a: seq<DistillResult>, b: seq<DistillResult>)
    ensures FirstSummary(a + b) == Or(FirstSummary(a), FirstSummary(b))
    ensures FirstModel(a + b) == Or(FirstModel(a), FirstModel(b))
    decreases |b|
  {
    if b == [] {
      assert a + b == a;
    } else {
      FirstConcat(a, b[..|b| - 1]);
      assert (a + b)[..|a + b| - 1] == a + b[..|b| - 1];
    }
  }

  /** The summary and the model name are the first ones given, the provenance is the
      first result's. */
  lemma {:induction false} FromTheLeaves(key: Fact -> Key, t: Bracketing)
    ensures
      var v, leaves := Value(key, t), Leaves(t);
      && leaves != [] && v.source == leaves[0].source && v.span == leaves[0].span
      && v.summary == FirstSummary(leaves) && v.model == FirstModel(leaves)
    decreases t
  {
    match t
    case Leaf(r) =>
      assert [r][..0] == [];
    case Pair(left, right) =>
      FromTheLeaves(key, left);
      FromTheLeaves(key, right);
      FirstConcat(Leaves(left), Leaves(right));
  }

  lemma SamePart(key: Fact -> Key, s: Bracketing, t: Bracketing, part: Part)
    requires Leaves(s) == Leaves(t) && forall r | r in Leaves(t) :: AllDistinct(key, r)
    ensures Facts(Value(key, s), part) == Facts(Value(key, t), part)
  {
    BracketingKeepsBest(key, s, part);
    BracketingKeepsBest(key, t, part);
  }

  /** Two bracketings of the same results agree on everything. */
  lemma {:induction false} BracketingsAgree(key: Fact -> Key, s: Bracketing, t: Bracketing)
    requires Leaves(s) == Leaves(t) && forall r | r in Leaves(t) :: AllDistinct(key, r)
    ensures Value(key, s) == Value(key, t)
  {
    SamePart(key, s, t, Entities);
    SamePart(key, s, t, Relationships);
    SamePart(key, s, t, Triplets);
    FromTheLeaves(key, s);
    FromTheLeaves(key, t);
  }
}
