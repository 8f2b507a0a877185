/** The version timeline of memos (`temporal/memo_versioning.py`) against an
    append-only log of the writes. */
module MemoVersions {
  import opened Basics
  import opened Graph
  import opened OrderLimit

  datatype Properties = Properties(json: string)

  /** valid_to */
  datatype Until = Open | Closed(time: int)

  datatype Version = Version(memo: Id, version: nat, properties: Properties, since: int, until: Until)

  datatype Write = Write(memo: Id, properties: Properties, time: int)

  /** `as_of`, or None */
  datatype AsOf = Current | At(time: int)

  datatype Answer = NotFound | Found(row: Version)

  // ----- the log

  function Writes(log: seq<Write>, memo: Id): seq<Write> {
    if log == [] then []
    else Writes(log[..|log| - 1], memo) + if log[|log| - 1].memo == memo then [log[|log| - 1]] else []
  }

  lemma WritesAppend(log: seq<Write>, w: Write, memo: Id)
    ensures Writes(log + [w], memo) == Writes(log, memo) + if w.memo == memo then [w] else []
  {
    assert (log + [w])[..|log|] == log;
  }

  lemma {:induction false} WritesAreTheMemos(log: seq<Write>, memo: Id)
    ensures forall w | w in Writes(log, memo) :: w.memo == memo
    decreases |log|
  {
    if log != [] {
      WritesAreTheMemos(log[..|log| - 1], memo);
    }
  }

  /** What every memo looks like once the writes up to a time are applied in log
      order. */
  function Replay(log: seq<Write>, asOf: AsOf): map<Id, Properties> {
    if log == [] then map[]
    else
      var state, w := Replay(log[..|log| - 1], asOf), log[|log| - 1];
      if asOf.Current? || w.time <= asOf.time then state[w.memo := w.properties] else state
  }

  // ----- the timeline

  /** The row of the i-th write: numbered from one, open until the next. */
  function RowAt(ws: seq<Write>, i: nat): Version
    requires i < |ws|
  {
    Version(ws[i].memo, i + 1, ws[i].properties, ws[i].time, if i + 1 < |ws| then Closed(ws[i + 1].time) else Open)
  }

  predicate InTimeline(ws: seq<Write>, r: Version) {
    1 <= r.version <= |ws| && r == RowAt(ws, r.version - 1)
  }

  /** The table holds the timelines of all memos and nothing else. */
  ghost predicate Holds(rows: set<Version>, log: seq<Write>) {
    forall r :: r in rows <==> InTimeline(Writes(log, r.memo), r)
  }

  predicate Matches(r: Version, asOf: AsOf) {
    match asOf
    case Current => r.until.Open?
    case At(t) => r.since <= t && (r.until.Open? || r.until.time > t)
  }

  /** The last write that is not after the given time; -1 when there is none. */
  function LastAt(ws: seq<Write>, asOf: AsOf): (i: int)
    ensures -1 <= i < |ws|
  {
    if ws == [] then -1
    else if asOf.Current? || ws[|ws| - 1].time <= asOf.time then |ws| - 1
    else LastAt(ws[..|ws| - 1], asOf)
  }

  function AnswerAt(ws: seq<Write>, asOf: AsOf): Answer {
    var i := LastAt(ws, asOf);
    if i < 0 then NotFound else Found(RowAt(ws, i))
  }

  predicate NotAfter(w: Write, asOf: AsOf) {
    asOf.Current? || w.time <= asOf.time
  }

  lemma {:induction false} LastAtIsLast(ws: seq<Write>, asOf: AsOf)
    ensures var i := LastAt(ws, asOf);
            (i >= 0 ==> NotAfter(ws[i], asOf)) && forall j | i < j < |ws| :: !NotAfter(ws[j], asOf)
    decreases |ws|
  {
    if ws != [] && !NotAfter(ws[|ws| - 1], asOf) {
      var front := ws[..|ws| - 1];
      LastAtIsLast(front, asOf);
      assert forall j | 0 <= j < |front| :: front[j] == ws[j];
    }
  }

  /** The row of that write matches, and no later row does, whatever the clock
      did. */
  lemma AnswerMatchesLast(ws: seq<Write>, asOf: AsOf)
    ensures
      var i := LastAt(ws, asOf);
      && (i >= 0 ==> Matches(RowAt(ws, i), asOf))
      && forall j | i < j < |ws| :: !Matches(RowAt(ws, j), asOf)
  {
    LastAtIsLast(ws, asOf);
    var i := LastAt(ws, asOf);
    if 0 <= i < |ws| - 1 {
      assert !NotAfter(ws[i + 1], asOf);
    }
    forall j | i < j < |ws| ensures !Matches(RowAt(ws, j), asOf) {
      assert !NotAfter(ws[j], asOf);
    }
  }

  /** The answer is what the replayed log says. */
  lemma {:induction false} AnswerIsReplay(log: seq<Write>, memo: Id, asOf: AsOf)
    ensures
      var answer, state := AnswerAt(Writes(log, memo), asOf), Replay(log, asOf);
      && (answer.Found? <==> memo in state)
      && (answer.Found? ==> answer.row.properties == state[memo])
    decreases |log|
  {
    if log != [] {
      var front, w := log[..|log| - 1], log[|log| - 1];
      AnswerIsReplay(front, memo, asOf);
      var before, ws := Writes(front, memo), Writes(log, memo);
      if w.memo == memo {
        assert ws[..|ws| - 1] == before;
      } else {
        assert ws == before;
      }
    }
  }

  // ----- the clock

  ghost predicate NonDecreasing(ws: seq<Write>) {
    forall i, j | 0 <= i <= j < |ws| :: ws[i].time <= ws[j].time
  }

  /** With a clock that never goes back, the row returned is the only one that
      matches. */
  lemma OnlyTheAnswerMatches(ws: seq<Write>, t: int, i: nat)
    requires NonDecreasing(ws) && i < |ws|
    ensures Matches(RowAt(ws, i), At(t)) <==> AnswerAt(ws, At(t)) == Found(RowAt(ws, i))
  {
    AnswerMatchesLast(ws, At(t));
    LastAtIsLast(ws, At(t));
    var last := LastAt(ws, At(t));
    if i < last {
      assert ws[i + 1].time <= ws[last].time <= t;
    }
  }

  /** A clock that goes back can leave two rows that match. */
  lemma ClockGoingBackOverlaps(memo: Id, p: Properties)
    ensures
      var ws := [Write(memo, p, 1), Write(memo, p, 5), Write(memo, p, 3)];
      Matches(RowAt(ws, 0), At(3)) && Matches(RowAt(ws, 2), At(3)) && AnswerAt(ws, At(3)) == Found(RowAt(ws, 2))
  {
    var ws := [Write(memo, p, 1), Write(memo, p, 5), Write(memo, p, 3)];
    AnswerMatchesLast(ws, At(3));
  }

  /** At no time do two rows match. */
  ghost predicate NeverTwo(ws: seq<Write>) {
    forall t: int, i: nat, j: nat
      | i < j < |ws| :: !(Matches(RowAt(ws, i), At(t)) && Matches(RowAt(ws, j), At(t)))
  }

  /** The j-th write is not back inside, or before, the window of the i-th row. */
  predicate NoReturn(ws: seq<Write>, i: nat, j: nat) {
    i + 1 < j < |ws| && ws[i].time < ws[i + 1].time ==> ws[i + 1].time <= ws[j].time
  }

  /** A later row that matches at the same time was written before the earlier
      window ended. */
  lemma SharedTime(ws: seq<Write>, i: nat, j: nat, t: int)
    requires i < j < |ws| && Matches(RowAt(ws, i), At(t)) && Matches(RowAt(ws, j), At(t))
    ensures i + 1 < j && !NoReturn(ws, i, j)
  {
  }

  /** A write made before the earlier window ended leaves two rows that match. */
  lemma ReturnOverlaps(ws: seq<Write>, i: nat, j: nat) returns (t: int, k: nat)
    requires i + 1 < j < |ws| && !NoReturn(ws, i, j)
    ensures i < k < |ws| && Matches(RowAt(ws, i), At(t)) && Matches(RowAt(ws, k), At(t))
  {
    t := if ws[i].time < ws[j].time then ws[j].time else ws[i].time;
    AnswerMatchesLast(ws, At(t));
    LastAtIsLast(ws, At(t));
    k := LastAt(ws, At(t));
  }

  /** No two rows ever match exactly when no write, after the one that closes a row,
      is made before that row's window ends. */
  lemma NeverTwoIff(ws: seq<Write>)
    ensures NeverTwo(ws) <==> forall i: nat, j: nat :: NoReturn(ws, i, j)
  {
    if NeverTwo(ws) {
      forall i: nat, j: nat ensures NoReturn(ws, i, j) {
        if !NoReturn(ws, i, j) {
          var t, k := ReturnOverlaps(ws, i, j);
        }
      }
    } else {
      var t: int, i: nat, j: nat :| i < j < |ws| && Matches(RowAt(ws, i), At(t)) && Matches(RowAt(ws, j), At(t));
      SharedTime(ws, i, j, t);
    }
  }

  /** Some time returns a version exactly when every later write is at a later
      time, so never when its window is empty. */
  lemma ReturnedIff(ws: seq<Write>, i: nat)
    requires i < |ws|
    ensures (exists t :: AnswerAt(ws, At(t)) == Found(RowAt(ws, i))) <==>
            forall j | i < j < |ws| :: ws[i].time < ws[j].time
  {
    if t :| AnswerAt(ws, At(t)) == Found(RowAt(ws, i)) {
      LastAtIsLast(ws, At(t));
      assert LastAt(ws, At(t)) == i;
      forall j | i < j < |ws| ensures ws[i].time < ws[j].time {
        assert !NotAfter(ws[j], At(t));
      }
    }
    if forall j | i < j < |ws| :: ws[i].time < ws[j].time {
      LastAtIsLast(ws, At(ws[i].time));
      assert LastAt(ws, At(ws[i].time)) == i;
      assert AnswerAt(ws, At(ws[i].time)) == Found(RowAt(ws, i));
    }
  }

  // ----- the table

  function CloseOpen(r: Version, memo: Id, now: int): Version {
    if r.memo == memo && r.until.Open? then r.(until := Closed(now)) else r
  }

  /** The two statements of a write, the first of which may find no row. */
  function Recorded(rows: set<Version>, version: nat, w: Write): set<Version> {
    (set r | r in rows :: CloseOpen(r, w.memo, w.time)) + {Version(w.memo, version, w.properties, w.time, Open)}
  }

  lemma {:induction false} RowOfTheMemo(log: seq<Write>, memo: Id, i: nat)
    requires i < |Writes(log, memo)|
    ensures RowAt(Writes(log, memo), i).memo == memo
  {
    WritesAreTheMemos(log, memo);
    assert Writes(log, memo)[i] in Writes(log, memo);
  }

  lemma {:induction false} RecordedRow(rows: set<Version>, log: seq<Write>, w: Write, r: Version)
    requires Holds(rows, log) && r.memo == w.memo
    ensures r in Recorded(rows, |Writes(log, w.memo)| + 1, w) <==> InTimeline(Writes(log, w.memo) + [w], r)
  {
    var ws := Writes(log, w.memo);
    if InTimeline(ws + [w], r) && r.version <= |ws| {
      var was := RowAt(ws, r.version - 1);
      RowOfTheMemo(log, w.memo, r.version - 1);
      ClosedRow(ws, w, was);
      assert was in rows;
    }
    if was :| was in rows && CloseOpen(was, w.memo, w.time) == r {
      ClosedRow(ws, w, was);
    }
  }

  /** Closing what is open makes a row of the timeline the row it is once the memo
      is written again. */
  lemma ClosedRow(ws: seq<Write>, w: Write, r: Version)
    requires InTimeline(ws, r) && r.memo == w.memo
    ensures CloseOpen(r, w.memo, w.time) == RowAt(ws + [w], r.version - 1)
  {
  }

  function NewestFirst(): (Version, Version) -> bool {
    (a: Version, b: Version) => a.version >= b.version
  }

  /** The rows after a write are the timelines of the longer log. */
  lemma {:induction false} RecordedHolds(rows: set<Version>, log: seq<Write>, w: Write)
    requires Holds(rows, log)
    ensures Holds(Recorded(rows, |Writes(log, w.memo)| + 1, w), log + [w])
  {
    var after := Recorded(rows, |Writes(log, w.memo)| + 1, w);
    forall r: Version
      ensures r in after <==> InTimeline(Writes(log + [w], r.memo), r)
    {
      WritesAppend(log, w, r.memo);
      if r.memo == w.memo {
        RecordedRow(rows, log, w, r);
      } else {
        assert Writes(log + [w], r.memo) == Writes(log, r.memo);
        OtherRow(rows, |Writes(log, w.memo)| + 1, w, r);
      }
    }
  }

  lemma OtherRow(rows: set<Version>, version: nat, w: Write, r: Version)
    requires r.memo != w.memo
    ensures r in Recorded(rows, version, w) <==> r in rows
  {
    if r in rows {
      assert CloseOpen(r, w.memo, w.time) == r;
    }
  }

  /** A memo has one open row, its last, and none before its first write. */
  lemma OpenRowIsLast(rows: set<Version>, log: seq<Write>, memo: Id)
    requires Holds(rows, log)
    ensures
      var ws := Writes(log, memo);
      && (forall r | r in rows && r.memo == memo && r.until.Open? :: r.version == |ws|)
      && ((exists r :: r in rows && r.memo == memo && r.until.Open?) <==> ws != [])
  {
    var ws := Writes(log, memo);
    if ws != [] {
      RowOfTheMemo(log, memo, |ws| - 1);
      assert RowAt(ws, |ws| - 1) in rows;
    }
  }

  /** One more than an open row's number, or one when nothing is open, is the
      number the longer log asks for, and closing is skipped only when there is
      nothing to close. */
  lemma NextVersion(rows: set<Version>, log: seq<Write>, w: Write, open: set<Version>, version: nat)
    requires Holds(rows, log) && open == set r | r in rows && r.memo == w.memo && r.until.Open?
    requires if open == {} then version == 1 else exists r :: r in open && version == r.version + 1
    ensures version == |Writes(log + [w], w.memo)|
    ensures Holds(Recorded(rows, version, w), log + [w])
    ensures forall r | r in rows :: !(r.memo == w.memo && r.version == version)
    ensures open == {} ==> rows == set r | r in rows :: CloseOpen(r, w.memo, w.time)
  {
    OpenRowIsLast(rows, log, w.memo);
    WritesAppend(log, w, w.memo);
    RecordedHolds(rows, log, w);
    if open == {} {
      forall r | r in rows ensures CloseOpen(r, w.memo, w.time) == r {
        assert r !in open;
      }
    }
  }

  /** The rows of a memo without its `n` newest. */
  ghost predicate AllBut(rest: set<Version>, ws: seq<Write>, memo: Id, n: nat) {
    forall r :: r in rest <==> r.memo == memo && r.version + n <= |ws| && InTimeline(ws, r)
  }

  lemma {:induction false} NewestOfRest(rest: set<Version>, log: seq<Write>, memo: Id, n: nat, best: Version)
    requires AllBut(rest, Writes(log, memo), memo, n) && best in rest
    requires forall r | r in rest :: best.version >= r.version
    ensures best == RowAt(Writes(log, memo), |Writes(log, memo)| - 1 - n)
        && AllBut(rest - {best}, Writes(log, memo), memo, n + 1)
  {
    var last := |Writes(log, memo)| - 1 - n;
    RowOfTheMemo(log, memo, last);
    assert RowAt(Writes(log, memo), last) in rest;
  }

  lemma SomethingLeft(rest: set<Version>, log: seq<Write>, memo: Id, n: nat)
    requires AllBut(rest, Writes(log, memo), memo, n) && n < |Writes(log, memo)|
    ensures rest != {}
  {
    RowOfTheMemo(log, memo, |Writes(log, memo)| - 1 - n);
    assert RowAt(Writes(log, memo), |Writes(log, memo)| - 1 - n) in rest;
  }

  class VersionTable {
    var rows: set<Version>
    ghost var log: seq<Write>

    ghost predicate Valid()
      reads this
    {
      Holds(rows, log)
    }

    constructor ()
      ensures Valid() && log == []
    {
      rows, log := {}, [];
    }

    /** `record_memo_version`.  The table has no row yet under the key it inserts. */
    method Record(memo: Id, properties: Properties, now: int) returns (version: nat)
      requires Valid()
      modifies this
      ensures Valid() && log == old(log) + [Write(memo, properties, now)]
      ensures version == |Writes(log, memo)|
      ensures forall r | r in old(rows) :: !(r.memo == memo && r.version == version)
      ensures rows == Recorded(old(rows), version, Write(memo, properties, now))
    {
      ghost var before, w := rows, Write(memo, properties, now);
      var open := set r | r in rows && r.memo == memo && r.until.Open?;
      version := 1;
      if open != {} {
        var row :| row in open;
        version := row.version + 1;
        rows := set r | r in rows :: CloseOpen(r, memo, now);
      }
      NextVersion(before, log, w, open, version);
      rows := rows + {Version(memo, version, properties, now, Open)};
      log := log + [w];
    }

    /** `get_memo_at` */
    method GetMemoAt(memo: Id, asOf: AsOf) returns (answer: Answer)
      requires Valid()
      ensures answer == AnswerAt(Writes(log, memo), asOf)
    {
      var matching := set r | r in rows && r.memo == memo && Matches(r, asOf);
      ghost var ws := Writes(log, memo);
      AnswerMatchesLast(ws, asOf);
      ghost var i := LastAt(ws, asOf);
      if i >= 0 {
        RowOfTheMemo(log, memo, i);
        assert RowAt(ws, i) in matching;
      }
      if matching == {} {
        return NotFound;
      }
      var best := First(matching, NewestFirst());
      assert InTimeline(ws, best);
      answer := Found(best);
    }

    /** `list_memo_versions` */
    method ListVersions(memo: Id, limit: nat) returns (newest: seq<Version>)
      requires Valid()
      ensures |newest| == Min(limit, |Writes(log, memo)|)
      ensures forall i | 0 <= i < |newest| :: newest[i] == RowAt(Writes(log, memo), |Writes(log, memo)| - 1 - i)
    {
      ghost var ws := Writes(log, memo);
      newest := [];
      var rest := set r | r in rows && r.memo == memo;
      while |newest| < limit && rest != {}
        invariant |newest| <= Min(limit, |ws|)
        invariant AllBut(rest, ws, memo, |newest|)
        invariant forall i | 0 <= i < |newest| :: newest[i] == RowAt(ws, |ws| - 1 - i)
        decreases rest
      {
        var best := First(rest, NewestFirst());
        NewestOfRest(rest, log, memo, |newest|, best);
        newest := newest + [best];
        rest := rest - {best};
      }
      if |newest| < |ws| {
        SomethingLeft(rest, log, memo, |newest|);
      }
    }
  }
}
