/** `run_reweight` and `run_prune` on the rows they read: edges are named by text, and
    the groups come in the order the database gives them. */
module Reweight {
  import opened Basics
  import opened Graph
  import opened OrderLimit
  import opened RealMath
  import opened Weights

  /** feedback.edge_id */
  datatype EdgeText = NoText | SomeText(text: string)

  /** UUID(edge_id), which may raise. */
  datatype Parsed = NotUuid | Uuid(id: Id)

  datatype FeedbackRow = FeedbackRow(org: Id, edge: EdgeText, signal: int)

  // ----- the groups

  function GroupSignals(rows: seq<FeedbackRow>, org: Id, text: string): seq<int> {
    if rows == [] then []
    else
      var f := rows[|rows| - 1];
      GroupSignals(rows[..|rows| - 1], org, text) + if f.org == org && f.edge == SomeText(text) then [f.signal] else []
  }

  /** The feedback rows of the tenant that name an edge by one of the texts. */
  function Naming(rows: seq<FeedbackRow>, org: Id, texts: set<string>): set<nat> {
    set i: nat | i < |rows| && rows[i].org == org && rows[i].edge.SomeText? && rows[i].edge.text in texts
  }

  /** COUNT(*) of a group is the number of rows with its text. */
  lemma {:induction false} GroupCount(rows: seq<FeedbackRow>, org: Id, text: string)
    ensures |GroupSignals(rows, org, text)| == |Naming(rows, org, {text})|
    decreases |rows|
  {
    if rows != [] {
      var n := |rows| - 1;
      GroupCount(rows[..n], org, text);
      var before := Naming(rows[..n], org, {text});
      assert n !in before;
      if rows[n].org == org && rows[n].edge == SomeText(text) {
        assert Naming(rows, org, {text}) == before + {n};
      } else {
        assert Naming(rows, org, {text}) == before;
      }
    }
  }

  lemma NamingOneMore(rows: seq<FeedbackRow>, org: Id, done: set<string>, text: string)
    requires text !in done
    ensures |Naming(rows, org, done + {text})| == |Naming(rows, org, done)| + |GroupSignals(rows, org, text)|
  {
    GroupCount(rows, org, text);
    assert Naming(rows, org, done + {text}) == Naming(rows, org, done) + Naming(rows, org, {text});
    assert Naming(rows, org, done) !! Naming(rows, org, {text});
  }

  /** GROUP BY edge_id */
  function Texts(rows: seq<FeedbackRow>, org: Id): set<string> {
    set i | 0 <= i < |rows| && rows[i].org == org && rows[i].edge.SomeText? :: rows[i].edge.text
  }

  /** The rows of the tenant that name any edge. */
  function FeedbackRead(rows: seq<FeedbackRow>, org: Id): set<nat> {
    set i: nat | i < |rows| && rows[i].org == org && rows[i].edge.SomeText?
  }

  lemma AllRead(rows: seq<FeedbackRow>, org: Id)
    ensures Naming(rows, org, Texts(rows, org)) == FeedbackRead(rows, org)
  {
    forall i: nat | i in FeedbackRead(rows, org)
      ensures rows[i].edge.text in Texts(rows, org)
    {
    }
  }

  lemma GroupsHaveSignals(rows: seq<FeedbackRow>, org: Id)
    ensures forall text | text in Texts(rows, org) :: GroupSignals(rows, org, text) != []
  {
    forall text | text in Texts(rows, org)
      ensures GroupSignals(rows, org, text) != []
    {
      var i: nat :| i < |rows| && rows[i].org == org && rows[i].edge == SomeText(text);
      GroupCount(rows, org, text);
      assert i in Naming(rows, org, {text});
    }
  }

  // ----- the updates

  /** The UPDATE of one group, if its text is a UUID. */
  function GroupApplied(
      uuid: string -> Parsed, table: Relationships, org: Id, rows: seq<FeedbackRow>, decay: real, text: string)
    : Relationships
    requires GroupSignals(rows, org, text) != []
  {
    if IsHit(uuid, table, org, text)
    then
      var id, mean := uuid(text).id, Mean(GroupSignals(rows, org, text));
      table[id := table[id].(weight := NewWeight(table[id].weight, mean, decay))]
    else table
  }

  predicate IsHit(uuid: string -> Parsed, table: Relationships, org: Id, text: string) {
    uuid(text).Uuid? && uuid(text).id in table && table[uuid(text).id].org == org
  }

  ghost predicate Grouped(rows: seq<FeedbackRow>, org: Id, order: seq<string>) {
    forall text | text in order :: GroupSignals(rows, org, text) != []
  }

  /** The updates of the groups, one after the other. */
  function Applied(
      uuid: string -> Parsed, table: Relationships, org: Id, rows: seq<FeedbackRow>, decay: real, order: seq<string>)
    : Relationships
    requires Grouped(rows, org, order)
  {
    if order == [] then table
    else
      var before := Applied(uuid, table, org, rows, decay, order[..|order| - 1]);
      GroupApplied(uuid, before, org, rows, decay, order[|order| - 1])
  }

  lemma {:induction false} AppliedKeepsRows(
      uuid: string -> Parsed, table: Relationships, org: Id, rows: seq<FeedbackRow>, decay: real, order: seq<string>)
    requires Grouped(rows, org, order)
    ensures
      var t := Applied(uuid, table, org, rows, decay, order);
      t.Keys == table.Keys && forall id | id in table :: t[id] == table[id].(weight := t[id].weight)
    decreases |order|
  {
    if order != [] {
      AppliedKeepsRows(uuid, table, org, rows, decay, order[..|order| - 1]);
    }
  }

  function Hit(uuid: string -> Parsed, table: Relationships, org: Id, texts: set<string>): set<string> {
    set text | text in texts && IsHit(uuid, table, org, text)
  }

  lemma HitOne(uuid: string -> Parsed, table: Relationships, org: Id, done: set<string>, text: string)
    requires text !in done
    ensures |Hit(uuid, table, org, done + {text})|
        == |Hit(uuid, table, org, done)| + if IsHit(uuid, table, org, text) then 1 else 0
  {
    if IsHit(uuid, table, org, text) {
      assert Hit(uuid, table, org, done + {text}) == Hit(uuid, table, org, done) + {text};
    } else {
      assert Hit(uuid, table, org, done + {text}) == Hit(uuid, table, org, done);
    }
  }

  /** The order in which a query without ORDER BY may return the groups. */
  ghost predicate IsOrder(rows: seq<FeedbackRow>, org: Id, order: seq<string>) {
    Distinct(order) && Elements(order) == Texts(rows, org)
  }

  // ----- when the order shows

  /** Each edge is named in one way. */
  ghost predicate OneSpelling(uuid: string -> Parsed, rows: seq<FeedbackRow>, org: Id) {
    forall s, t | s in Texts(rows, org) && t in Texts(rows, org) && uuid(s).Uuid? && uuid(s) == uuid(t) :: s == t
  }

  function RefOf(uuid: string -> Parsed, text: string): EdgeRef {
    match uuid(text)
    case NotUuid => Foreign(text)
    case Uuid(id) => Row(id)
  }

  /** The feedback with its texts read. */
  function Read(uuid: string -> Parsed, rows: seq<FeedbackRow>): seq<Feedback> {
    if rows == [] then []
    else
      var f := rows[|rows| - 1];
      Read(uuid, rows[..|rows| - 1])
      + [Feedback(f.org, if f.edge.NoText? then NoEdge else RefOf(uuid, f.edge.text), f.signal)]
  }

  /** `text` is the only spelling of its edge. */
  ghost predicate Sole(uuid: string -> Parsed, rows: seq<FeedbackRow>, org: Id, text: string) {
    forall i | 0 <= i < |rows| && rows[i].org == org && rows[i].edge.SomeText? ::
      RefOf(uuid, rows[i].edge.text) == RefOf(uuid, text) ==> rows[i].edge.text == text
  }

  lemma {:induction false} SoleSignals(uuid: string -> Parsed, rows: seq<FeedbackRow>, org: Id, text: string)
    requires Sole(uuid, rows, org, text)
    ensures Signals(Read(uuid, rows), org, RefOf(uuid, text)) == GroupSignals(rows, org, text)
    decreases |rows|
  {
    if rows != [] {
      var front := rows[..|rows| - 1];
      assert forall i | 0 <= i < |front| :: front[i] == rows[i];
      SoleSignals(uuid, front, org, text);
      var all := Read(uuid, rows);
      assert all[..|all| - 1] == Read(uuid, front);
    }
  }

  lemma ReadAt(uuid: string -> Parsed, rows: seq<FeedbackRow>, i: nat)
    requires i < |rows|
    ensures |Read(uuid, rows)| == |rows|
    ensures Read(uuid, rows)[i]
      == Feedback(rows[i].org, if rows[i].edge.NoText? then NoEdge else RefOf(uuid, rows[i].edge.text), rows[i].signal)
    decreases |rows|
  {
    if |rows| > 1 {
      ReadAt(uuid, rows[..|rows| - 1], if i < |rows| - 1 then i else 0);
    }
  }

  function RefsOf(uuid: string -> Parsed, texts: set<string>): set<EdgeRef> {
    set text | text in texts :: RefOf(uuid, text)
  }

  lemma RefsAreRead(uuid: string -> Parsed, rows: seq<FeedbackRow>, org: Id)
    ensures Refs(Read(uuid, rows), org) == RefsOf(uuid, Texts(rows, org))
  {
    var all := Read(uuid, rows);
    forall r | r in Refs(all, org)
      ensures r in RefsOf(uuid, Texts(rows, org))
    {
      var i: nat :| i < |all| && all[i].org == org && !all[i].edge.NoEdge? && all[i].edge == r;
      ReadLength(uuid, rows);
      ReadAt(uuid, rows, i);
    }
    forall text | text in Texts(rows, org)
      ensures RefOf(uuid, text) in Refs(all, org)
    {
      var i: nat :| i < |rows| && rows[i].org == org && rows[i].edge == SomeText(text);
      ReadAt(uuid, rows, i);
      assert all[i].edge == RefOf(uuid, text);
    }
  }

  lemma {:induction false} ReadLength(uuid: string -> Parsed, rows: seq<FeedbackRow>)
    ensures |Read(uuid, rows)| == |rows|
  {
    if rows != [] {
      ReadAt(uuid, rows, 0);
    }
  }

  lemma SoleInGroups(uuid: string -> Parsed, rows: seq<FeedbackRow>, org: Id, text: string)
    requires OneSpelling(uuid, rows, org) && text in Texts(rows, org)
    ensures Sole(uuid, rows, org, text)
  {
    forall i | 0 <= i < |rows| && rows[i].org == org && rows[i].edge.SomeText?
      ensures RefOf(uuid, rows[i].edge.text) == RefOf(uuid, text) ==> rows[i].edge.text == text
    {
      assert rows[i].edge.text in Texts(rows, org);
    }
  }

  lemma RefsHaveSignals(uuid: string -> Parsed, rows: seq<FeedbackRow>, org: Id)
    ensures forall r | r in RefsOf(uuid, Texts(rows, org)) :: Signals(Read(uuid, rows), org, r) != []
  {
    RefsAreRead(uuid, rows, org);
    forall r | r in RefsOf(uuid, Texts(rows, org))
      ensures Signals(Read(uuid, rows), org, r) != []
    {
      RefHasSignals(Read(uuid, rows), org, r);
    }
  }

  lemma {:induction false} AppliedIsReweighted(
      uuid: string -> Parsed, table: Relationships, org: Id, rows: seq<FeedbackRow>, decay: real, order: seq<string>)
    requires OneSpelling(uuid, rows, org) && Distinct(order) && Elements(order) <= Texts(rows, org)
    requires Grouped(rows, org, order)
    requires forall r | r in RefsOf(uuid, Elements(order)) :: Signals(Read(uuid, rows), org, r) != []
    ensures Applied(uuid, table, org, rows, decay, order)
         == Reweighted(table, org, Read(uuid, rows), decay, RefsOf(uuid, Elements(order)))
    decreases |order|
  {
    var feedback := Read(uuid, rows);
    if order == [] {
      assert Reweighted(table, org, feedback, decay, {}) == table;
    } else {
      var front, text := order[..|order| - 1], order[|order| - 1];
      assert Elements(order) == Elements(front) + {text};
      assert text in order;
      AppliedIsReweighted(uuid, table, org, rows, decay, front);
      var done, r := RefsOf(uuid, Elements(front)), RefOf(uuid, text);
      assert RefsOf(uuid, Elements(order)) == done + {r};
      assert r !in done;
      SoleInGroups(uuid, rows, org, text);
      SoleSignals(uuid, rows, org, text);
      ReweightOne(table, org, feedback, decay, done, r);
    }
  }

  /** When each edge is named in one way, the order of the groups does not show. */
  lemma OrderDoesNotShow(
      uuid: string -> Parsed, table: Relationships, org: Id, rows: seq<FeedbackRow>, decay: real, order: seq<string>)
    requires OneSpelling(uuid, rows, org) && IsOrder(rows, org, order) && Grouped(rows, org, order)
    ensures Applied(uuid, table, org, rows, decay, order) == AfterReweight(table, org, Read(uuid, rows), decay)
  {
    RefsAreRead(uuid, rows, org);
    RefsHaveSignals(uuid, rows, org);
    AppliedIsReweighted(uuid, table, org, rows, decay, order);
  }

  // ----- in numbers

  /** The feedback rows of the tenant that name the edge, and those that do with the
      given signal. */
  function About(uuid: string -> Parsed, rows: seq<FeedbackRow>, org: Id, id: Id): set<nat> {
    set i: nat | i < |rows| && rows[i].org == org && rows[i].edge.SomeText? && uuid(rows[i].edge.text) == Uuid(id)
  }

  function Saying(uuid: string -> Parsed, rows: seq<FeedbackRow>, org: Id, id: Id, signal: int): set<nat> {
    set i: nat | i in About(uuid, rows, org, id) && rows[i].signal == signal
  }

  lemma SayingIsGiving(uuid: string -> Parsed, rows: seq<FeedbackRow>, org: Id, id: Id, signal: int)
    ensures Giving(Read(uuid, rows), org, Row(id), signal) == Saying(uuid, rows, org, id, signal)
  {
    ReadLength(uuid, rows);
    forall i: nat | i < |rows|
      ensures i in Giving(Read(uuid, rows), org, Row(id), signal) <==> i in Saying(uuid, rows, org, id, signal)
    {
      ReadAt(uuid, rows, i);
    }
  }

  predicate ValidSignals(rows: seq<FeedbackRow>) {
    forall i | 0 <= i < |rows| :: -1 <= rows[i].signal <= 1
  }

  lemma ReadIsValid(uuid: string -> Parsed, rows: seq<FeedbackRow>)
    requires ValidSignals(rows)
    ensures SignalsValid(Read(uuid, rows))
  {
    ReadLength(uuid, rows);
    forall i | 0 <= i < |rows|
      ensures IsSignal(Read(uuid, rows)[i].signal)
    {
      ReadAt(uuid, rows, i);
    }
  }

  lemma {:induction false} SignalsAreSignals(feedback: seq<Feedback>, org: Id, edge: EdgeRef)
    requires SignalsValid(feedback)
    ensures forall s | s in Signals(feedback, org, edge) :: IsSignal(s)
    decreases |feedback|
  {
    if feedback != [] {
      SignalsAreSignals(feedback[..|feedback| - 1], org, edge);
    }
  }

  /** The signals about an edge, counted. */
  lemma SignalsInNumbers(uuid: string -> Parsed, rows: seq<FeedbackRow>, org: Id, id: Id)
    requires ValidSignals(rows)
    ensures
      var s := Signals(Read(uuid, rows), org, Row(id));
      && |s| == |About(uuid, rows, org, id)|
      && multiset(s)[1] == |Saying(uuid, rows, org, id, 1)| && multiset(s)[-1] == |Saying(uuid, rows, org, id, -1)|
      && forall i | 0 <= i < |s| :: IsSignal(s[i])
  {
    var s := Signals(Read(uuid, rows), org, Row(id));
    ReadIsValid(uuid, rows);
    SignalsAreSignals(Read(uuid, rows), org, Row(id));
    SumCounts(s);
    SayingIsGiving(uuid, rows, org, id, 1);
    SayingIsGiving(uuid, rows, org, id, 0);
    SayingIsGiving(uuid, rows, org, id, -1);
    SignalsCount(Read(uuid, rows), org, Row(id), 1);
    SignalsCount(Read(uuid, rows), org, Row(id), 0);
    SignalsCount(Read(uuid, rows), org, Row(id), -1);
    ThreeKinds(uuid, rows, org, id);
  }

  lemma ThreeKinds(uuid: string -> Parsed, rows: seq<FeedbackRow>, org: Id, id: Id)
    requires ValidSignals(rows)
    ensures |About(uuid, rows, org, id)| == |Saying(uuid, rows, org, id, 1)| + |Saying(uuid, rows, org, id, 0)|
      + |Saying(uuid, rows, org, id, -1)|
  {
    var up, flat, down :=
      Saying(uuid, rows, org, id, 1), Saying(uuid, rows, org, id, 0), Saying(uuid, rows, org, id, -1);
    assert About(uuid, rows, org, id) == (up + flat) + down;
    assert up !! flat && (up + flat) !! down;
  }

  /** A weight moves towards t = ((up - down) / n + 1) / 2 and keeps the decay's share of
      its distance. */
  predicate Moves(before: real, after: real, decay: real, n: nat, up: nat, down: nat)
    requires n > 0
  {
    var t := ((up - down as int) as real / n as real + 1.0) / 2.0;
    after - t == decay * (before - t)
  }

  lemma WeightMoves(s: seq<int>, w: real, decay: real, n: nat, up: nat, down: nat) returns (after: real)
    requires s != [] && (forall i | 0 <= i < |s| :: IsSignal(s[i])) && InUnit(w) && InUnit(decay)
    requires n == |s| && up == multiset(s)[1] && down == multiset(s)[-1]
    ensures after == NewWeight(w, Mean(s), decay) && Moves(w, after, decay, n, up, down)
  {
    after := NewWeight(w, Mean(s), decay);
    MeanCounts(s, up, down);
    ClampNeverActs(w, Mean(s), decay);
  }

  /** The row of an edge in the reweighted table. */
  lemma RowAfterReweight(table: Relationships, org: Id, feedback: seq<Feedback>, decay: real, id: Id)
    requires id in table
    ensures
      var after, s := AfterReweight(table, org, feedback, decay), Signals(feedback, org, Row(id));
      && after.Keys == table.Keys
      && after[id] == if table[id].org == org && s != []
         then table[id].(weight := NewWeight(table[id].weight, Mean(s), decay)) else table[id]
  {
    RefHasSignals(feedback, org, Row(id));
    var s := Signals(feedback, org, Row(id));
    assert Touched(table, org, Refs(feedback, org), id) <==> table[id].org == org && s != [];
  }

  /** What reweighting does to any row: the tenant's edges that feedback is about move,
      by all of it, and every other row stays. */
  lemma EdgeAfterReweight(
      uuid: string -> Parsed, table: Relationships, org: Id, rows: seq<FeedbackRow>, decay: real, id: Id)
    requires id in table && InUnit(table[id].weight) && InUnit(decay) && ValidSignals(rows)
    ensures
      var after, about := AfterReweight(table, org, Read(uuid, rows), decay), About(uuid, rows, org, id);
      && after.Keys == table.Keys
      && if table[id].org != org || |about| == 0 then after[id] == table[id]
         else
           && after[id] == table[id].(weight := after[id].weight)
           && Moves(table[id].weight, after[id].weight, decay, |about|,
                |Saying(uuid, rows, org, id, 1)|, |Saying(uuid, rows, org, id, -1)|)
  {
    var s := Signals(Read(uuid, rows), org, Row(id));
    SignalsInNumbers(uuid, rows, org, id);
    RowAfterReweight(table, org, Read(uuid, rows), decay, id);
    if table[id].org == org && s != [] {
      var w := WeightMoves(s, table[id].weight, decay, |About(uuid, rows, org, id)|,
        |Saying(uuid, rows, org, id, 1)|, |Saying(uuid, rows, org, id, -1)|);
    }
  }

  /** The feedback rows of one group with the given signal. */
  function InGroup(rows: seq<FeedbackRow>, org: Id, text: string, signal: int): set<nat> {
    set i: nat | i < |rows| && rows[i] == FeedbackRow(org, SomeText(text), signal)
  }

  lemma InGroupOneMore(rows: seq<FeedbackRow>, f: FeedbackRow, org: Id, text: string, signal: int)
    ensures |InGroup(rows + [f], org, text, signal)|
        == |InGroup(rows, org, text, signal)| + if f == FeedbackRow(org, SomeText(text), signal) then 1 else 0
  {
    var all, before := rows + [f], InGroup(rows, org, text, signal);
    assert forall i | 0 <= i < |rows| :: all[i] == rows[i];
    assert InGroup(all, org, text, signal)
        == if f == FeedbackRow(org, SomeText(text), signal) then before + {|rows|} else before;
  }

  lemma {:induction false} GroupSignalsCount(rows: seq<FeedbackRow>, org: Id, text: string, signal: int)
    ensures multiset(GroupSignals(rows, org, text))[signal] == |InGroup(rows, org, text, signal)|
    decreases |rows|
  {
    if rows != [] {
      var front, f := rows[..|rows| - 1], rows[|rows| - 1];
      GroupSignalsCount(front, org, text, signal);
      InGroupOneMore(front, f, org, text, signal);
      CountOneMore(GroupSignals(front, org, text), f.signal, signal);
      assert rows == front + [f];
    }
  }

  lemma {:induction false} GroupSignalsAreSignals(rows: seq<FeedbackRow>, org: Id, text: string)
    requires ValidSignals(rows)
    ensures forall s | s in GroupSignals(rows, org, text) :: IsSignal(s)
    decreases |rows|
  {
    if rows != [] {
      GroupSignalsAreSignals(rows[..|rows| - 1], org, text);
    }
  }

  /** What one group does: the tenant's edge that it names moves, by its own feedback,
      and every other row stays. */
  lemma EdgeAfterGroup(
      uuid: string -> Parsed, table: Relationships, org: Id, rows: seq<FeedbackRow>, decay: real, text: string, id: Id)
    requires GroupSignals(rows, org, text) != [] && ValidSignals(rows)
    requires id in table && InUnit(table[id].weight) && InUnit(decay)
    ensures
      var after, named := GroupApplied(uuid, table, org, rows, decay, text), Naming(rows, org, {text});
      && after.Keys == table.Keys && |named| > 0
      && if table[id].org != org || uuid(text) != Uuid(id) then after[id] == table[id]
         else
           && after[id] == table[id].(weight := after[id].weight)
           && Moves(table[id].weight, after[id].weight, decay, |named|,
                |InGroup(rows, org, text, 1)|, |InGroup(rows, org, text, -1)|)
  {
    var s := GroupSignals(rows, org, text);
    GroupCount(rows, org, text);
    GroupSignalsCount(rows, org, text, 1);
    GroupSignalsCount(rows, org, text, -1);
    GroupSignalsAreSignals(rows, org, text);
    if table[id].org == org && uuid(text) == Uuid(id) {
      var w := WeightMoves(s, table[id].weight, decay, |Naming(rows, org, {text})|,
        |InGroup(rows, org, text, 1)|, |InGroup(rows, org, text, -1)|);
    }
  }

  /** Two spellings of one edge: the order of their groups shows exactly when their
      means differ and feedback counts at all. */
  lemma SpellingsCommuteIff(w: real, a: real, b: real, decay: real)
    requires InUnit(w) && -1.0 <= a <= 1.0 && -1.0 <= b <= 1.0 && InUnit(decay)
    ensures NewWeight(NewWeight(w, a, decay), b, decay) == NewWeight(NewWeight(w, b, decay), a, decay) <==>
            decay == 1.0 || a == b
  {
    StepToTarget(w, a, decay);
    StepToTarget(w, b, decay);
    StepToTarget(NewWeight(w, a, decay), b, decay);
    StepToTarget(NewWeight(w, b, decay), a, decay);
    BlendsCommuteIff(w, Target(a), Target(b), decay, NewWeight(w, a, decay), NewWeight(w, b, decay));
  }

  lemma BlendsCommuteIff(w: real, s: real, t: real, d: real, x: real, y: real)
    requires x - s == d * (w - s) && y - t == d * (w - t)
    ensures t + d * (x - t) == s + d * (y - s) <==> d == 1.0 || s == t
  {
    var e := 1.0 - d;
    assert d * (w - s) == d * w - d * s && d * (w - t) == d * w - d * t;
    assert x == d * w + e * s && y == d * w + e * t;
    assert d * (x - y) == d * (e * (s - t));
    assert t + d * (x - t) - (s + d * (y - s)) == (t - s) + d * (x - y) - d * (t - s);
    assert (t - s) - d * (t - s) == e * (t - s);
    assert d * (e * (s - t)) == -(d * (e * (t - s)));
    assert e * (t - s) - d * (e * (t - s)) == e * (e * (t - s));
    NoZeroDivisors(e, e * (t - s));
    NoZeroDivisors(e, t - s);
  }

  lemma NoZeroDivisors(a: real, b: real)
    ensures a * b == 0.0 <==> a == 0.0 || b == 0.0
  {
    if a != 0.0 && a * b == 0.0 {
      assert b == (a * b) / a;
    }
  }

  // ----- the loop over the groups

  lemma OneMoreText(order: seq<string>, text: string)
    requires Distinct(order) && text !in order
    ensures Elements(order + [text]) == Elements(order) + {text} && Distinct(order + [text])
  {
  }

  lemma {:induction false} OneMoreUpdate(
      uuid: string -> Parsed, table: Relationships, org: Id, rows: seq<FeedbackRow>, decay: real, order: seq<string>,
      text: string)
    requires Grouped(rows, org, order) && GroupSignals(rows, org, text) != []
    ensures Grouped(rows, org, order + [text])
    ensures
      var t := Applied(uuid, table, org, rows, decay, order);
      && (IsHit(uuid, t, org, text) <==> IsHit(uuid, table, org, text))
      && Applied(uuid, table, org, rows, decay, order + [text]) == GroupApplied(uuid, t, org, rows, decay, text)
  {
    AppliedKeepsRows(uuid, table, org, rows, decay, order);
    assert (order + [text])[..|order|] == order;
  }

  /** The groups of `order` are applied and counted. */
  ghost predicate AreDone(
      uuid: string -> Parsed, before: Relationships, org: Id, rows: seq<FeedbackRow>, decay: real, order: seq<string>,
      table: Relationships, reweighted: nat, drained: nat)
  {
    && Distinct(order) && Grouped(rows, org, order)
    && table == Applied(uuid, before, org, rows, decay, order)
    && reweighted == |Hit(uuid, before, org, Elements(order))|
    && drained == |Naming(rows, org, Elements(order))|
  }

  lemma NoGroups(uuid: string -> Parsed, table: Relationships, org: Id, rows: seq<FeedbackRow>, decay: real)
    ensures Elements<string>([]) == {} && AreDone(uuid, table, org, rows, decay, [], table, 0, 0)
  {
    assert Naming(rows, org, {}) == {} && Elements<string>([]) == {};
  }

  lemma {:induction false} NextGroup(
      uuid: string -> Parsed, before: Relationships, org: Id, rows: seq<FeedbackRow>, decay: real, order: seq<string>,
      table: Relationships, reweighted: nat, drained: nat, text: string)
    requires AreDone(uuid, before, org, rows, decay, order, table, reweighted, drained)
    requires text !in order && GroupSignals(rows, org, text) != []
    ensures Elements(order + [text]) == Elements(order) + {text}
    ensures AreDone(uuid, before, org, rows, decay, order + [text], GroupApplied(uuid, table, org, rows, decay, text),
      reweighted + (if IsHit(uuid, table, org, text) then 1 else 0), drained + |GroupSignals(rows, org, text)|)
  {
    OneMoreText(order, text);
    OneMoreUpdate(uuid, before, org, rows, decay, order, text);
    HitOne(uuid, before, org, Elements(order), text);
    NamingOneMore(rows, org, Elements(order), text);
  }

  lemma AllGroups(
      uuid: string -> Parsed, before: Relationships, org: Id, rows: seq<FeedbackRow>, decay: real, order: seq<string>,
      table: Relationships, reweighted: nat, drained: nat)
    requires AreDone(uuid, before, org, rows, decay, order, table, reweighted, drained)
    requires Elements(order) == Texts(rows, org)
    ensures OneSpelling(uuid, rows, org) ==> table == AfterReweight(before, org, Read(uuid, rows), decay)
    ensures reweighted == |Hit(uuid, before, org, Texts(rows, org))| && drained == |FeedbackRead(rows, org)|
  {
    AllRead(rows, org);
    if OneSpelling(uuid, rows, org) {
      OrderDoesNotShow(uuid, before, org, rows, decay, order);
    }
  }

  // ----- the table

  class EdgeTable {
    var edges: Relationships

    /** One group: the UPDATE, if its text is a UUID, and whether it found a row. */
    method UpdateGroup(
        uuid: string -> Parsed, org: Id, ghost rows: seq<FeedbackRow>, decay: real, text: string, signals: seq<int>)
      returns (hit: bool)
      requires signals != [] && signals == GroupSignals(rows, org, text)
      modifies this
      ensures edges == GroupApplied(uuid, old(edges), org, rows, decay, text)
      ensures hit <==> IsHit(uuid, old(edges), org, text)
    {
      match uuid(text)
      case NotUuid => hit := false;
      case Uuid(id) =>
        hit := id in edges && edges[id].org == org;
        if hit {
          edges := edges[id := edges[id].(weight := NewWeight(edges[id].weight, Mean(signals), decay))];
        }
    }

    /** The body of the loop. */
    method CountGroup(
        uuid: string -> Parsed, org: Id, rows: seq<FeedbackRow>, decay: real, text: string,
        reweighted: nat, drained: nat, ghost before: Relationships, ghost order: seq<string>)
      returns (reweighted': nat, drained': nat)
      requires AreDone(uuid, before, org, rows, decay, order, edges, reweighted, drained)
      requires text !in order && GroupSignals(rows, org, text) != []
      modifies this
      ensures AreDone(uuid, before, org, rows, decay, order + [text], edges, reweighted', drained')
    {
      NextGroup(uuid, before, org, rows, decay, order, edges, reweighted, drained, text);
      var signals := GroupSignals(rows, org, text);
      var hit := UpdateGroup(uuid, org, rows, decay, text, signals);
      reweighted', drained' := reweighted + (if hit then 1 else 0), drained + |signals|;
    }

    /** `run_reweight` */
    method RunReweight(uuid: string -> Parsed, org: Id, rows: seq<FeedbackRow>, decay: real)
      returns (reweighted: nat, drained: nat, ghost order: seq<string>)
      modifies this
      ensures IsOrder(rows, org, order) && Grouped(rows, org, order)
      ensures edges == Applied(uuid, old(edges), org, rows, decay, order)
      ensures OneSpelling(uuid, rows, org) ==> edges == AfterReweight(old(edges), org, Read(uuid, rows), decay)
      ensures reweighted == |Hit(uuid, old(edges), org, Texts(rows, org))|
      ensures drained == |FeedbackRead(rows, org)|
    {
      GroupsHaveSignals(rows, org);
      ghost var before := edges;
      var todo := Texts(rows, org);
      reweighted, drained, order := 0, 0, [];
      NoGroups(uuid, before, org, rows, decay);
      while todo != {}
        invariant todo !! Elements(order) && todo + Elements(order) == Texts(rows, org)
        invariant AreDone(uuid, before, org, rows, decay, order, edges, reweighted, drained)
        decreases todo
      {
        var text :| text in todo;
        OneMoreText(order, text);
        reweighted, drained := CountGroup(uuid, org, rows, decay, text, reweighted, drained, before, order);
        order := order + [text];
        todo := todo - {text};
      }
      AllGroups(uuid, before, org, rows, decay, order, edges, reweighted, drained);
    }

    /** `run_prune` */
    method RunPrune(org: Id, threshold: real) returns (pruned: nat)
      modifies this
      ensures edges == AfterPrune(old(edges), org, threshold)
      ensures forall id :: id in edges <==>
        id in old(edges) && !(old(edges)[id].org == org && old(edges)[id].weight < threshold)
      ensures forall id | id in edges :: edges[id] == old(edges)[id]
      ensures pruned == |old(edges).Keys| - |edges.Keys|
    {
      var gone := set id | id in edges && edges[id].org == org && edges[id].weight < threshold;
      var kept := AfterPrune(edges, org, threshold);
      assert kept.Keys == edges.Keys - gone;
      pruned := |gone|;
      edges := kept;
    }

    /** Reweight, then prune, as the refine pipeline orders them. */
    method RunCycle(uuid: string -> Parsed, org: Id, rows: seq<FeedbackRow>, decay: real, threshold: real)
      returns (ghost order: seq<string>)
      modifies this
      ensures IsOrder(rows, org, order) && Grouped(rows, org, order)
      ensures edges == AfterPrune(Applied(uuid, old(edges), org, rows, decay, order), org, threshold)
      ensures OneSpelling(uuid, rows, org) ==>
        edges == Cycle(old(edges), org, Read(uuid, rows), decay, threshold)
    {
      var _, _, groups := RunReweight(uuid, org, rows, decay);
      var _ := RunPrune(org, threshold);
      order := groups;
    }
  }
}
