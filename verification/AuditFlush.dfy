/** What `flush_audit_chain` (`engine/audit.py`) makes of any queue in batches of any
    size, and exactly when that is what one pass over the queue makes of it. */
module AuditFlush {
  import opened AuditChain
  import opened AuditLog
  import opened Basics

  function Product(a: nat, b: nat): nat {
    if b == 0 then 0 else a + Product(a, b - 1)
  }

  lemma {:induction false} ProductIsTimes(a: nat, b: nat)
    ensures Product(a, b) == a * b
    decreases b
  {
    if b > 0 {
      ProductIsTimes(a, b - 1);
      assert a * b == a + a * (b - 1);
    }
  }

  // ----- how much is drained

  /** A flush that has a batch to drain drains it, and flushes the rest. */
  lemma FlushFirst(scheme: Scheme, t: Tables, batchSize: nat, iterations: nat) returns (d: Tables)
    requires iterations > 0 && batchSize > 0 && t.pending != []
    ensures d == Drained(scheme, t, batchSize)
    ensures Flushed(scheme, t, batchSize, iterations) == Flushed(scheme, d, batchSize, iterations - 1)
  {
    d := Drained(scheme, t, batchSize);
  }

  lemma BatchAndRest(batch: nat, rest: nat, length: nat)
    ensures Min(batch, length) <= Min(batch + rest, length)
    ensures Min(rest, length - Min(batch, length)) == Min(batch + rest, length) - Min(batch, length)
  {
  }

  /** `b` is `a` with `k` entries moved from the queue to the log. */
  predicate Moved(a: Tables, b: Tables, k: nat) {
    && k <= |a.pending| && b.pending == a.pending[k..]
    && b.nextId == a.nextId + k && |b.log| == |a.log| + k && a.log <= b.log
  }

  lemma MovedTwice(a: Tables, b: Tables, c: Tables, k: nat, m: nat)
    requires Moved(a, b, k) && Moved(b, c, m)
    ensures Moved(a, c, k + m)
  {
    assert a.pending[k..][m..] == a.pending[k + m..];
  }

  lemma MoveFirst(scheme: Scheme, t: Tables, batchSize: nat, iterations: nat) returns (d: Tables)
    requires iterations > 0 && batchSize > 0 && t.pending != []
    ensures Moved(t, d, Min(batchSize, |t.pending|))
    ensures Flushed(scheme, t, batchSize, iterations) == Flushed(scheme, d, batchSize, iterations - 1)
  {
    d := FlushFirst(scheme, t, batchSize, iterations);
  }

  /** A flush moves min(pending, batch_size * max_iterations) entries and leaves the
      rows of the log alone, whatever the created_at are. */
  lemma {:induction false} FlushCounts(scheme: Scheme, t: Tables, batchSize: nat, iterations: nat, f: Tables)
    requires batchSize > 0 && f == Flushed(scheme, t, batchSize, iterations)
    ensures Moved(t, f, Min(Product(batchSize, iterations), |t.pending|))
    decreases iterations
  {
    if iterations > 0 && t.pending != [] {
      var k, rest := Min(batchSize, |t.pending|), Product(batchSize, iterations - 1);
      var d := MoveFirst(scheme, t, batchSize, iterations);
      FlushCounts(scheme, d, batchSize, iterations - 1, f);
      BatchAndRest(batchSize, rest, |t.pending|);
      MovedTwice(t, d, f, k, Min(rest, |d.pending|));
    }
  }

  lemma FirstIsLinked(scheme: Scheme, log: seq<LogRow>, rows: seq<PendingRow>, id: nat, more: seq<LogRow>)
    requires rows != [] && log + ChainRows(scheme, LatestLink(log), rows, id) <= more
    ensures |more| > |log| && more[|log|].prevHash == LatestLink(log)
  {
    assert more[|log|] == (log + ChainRows(scheme, LatestLink(log), rows, id))[|log|];
  }

  /** The first row a flush appends is linked to the row its first lookup finds. */
  lemma FlushStarts(scheme: Scheme, t: Tables, batchSize: nat, iterations: nat, f: Tables)
    requires batchSize > 0 && iterations > 0 && t.pending != []
    requires f == Flushed(scheme, t, batchSize, iterations)
    ensures |f.log| > |t.log| && f.log[|t.log|].prevHash == LatestLink(t.log)
  {
    var k := Min(batchSize, |t.pending|);
    var d := FlushFirst(scheme, t, batchSize, iterations);
    FlushCounts(scheme, d, batchSize, iterations - 1, f);
    FirstIsLinked(scheme, t.log, t.pending[..k], t.nextId, f.log);
  }

  // ----- where a lookup falls

  /** A lookup made after the first `m` rows of the pass finds the row that one pass
      links to there. */
  predicate FitsAfter(log: seq<LogRow>, pass: seq<LogRow>, m: nat) {
    m <= |pass| && LatestLink(log + pass[..m]) == LinkAfter(LatestLink(log), pass[..m])
  }

  /** So does the lookup after the first `j` batches, if there is one. */
  predicate BatchFits(log: seq<LogRow>, pass: seq<LogRow>, batchSize: nat, j: nat) {
    Product(batchSize, j) < |pass| ==> FitsAfter(log, pass, Product(batchSize, j))
  }

  ghost predicate AllFit(log: seq<LogRow>, pass: seq<LogRow>, batchSize: nat, iterations: nat) {
    forall j: nat | 0 < j < iterations :: BatchFits(log, pass, batchSize, j)
  }

  /** Moving the first `b` rows of the pass into the log. */
  lemma ShiftOne(log: seq<LogRow>, pass: seq<LogRow>, b: nat, m: nat)
    requires 0 < b && 0 < m && b + m <= |pass| && FitsAfter(log, pass, b)
    ensures FitsAfter(log + pass[..b], pass[b..], m) <==> FitsAfter(log, pass, b + m)
  {
    var head, rest, more := pass[..b], pass[b..], pass[..b + m];
    assert more == head + rest[..m];
    assert log + more == (log + head) + rest[..m];
    assert more[b + m - 1] == rest[..m][m - 1];
  }

  lemma ShiftBatch(log: seq<LogRow>, pass: seq<LogRow>, b: nat, j: nat)
    requires 0 < b < |pass| && 0 < j && FitsAfter(log, pass, b)
    ensures BatchFits(log + pass[..b], pass[b..], b, j) <==> BatchFits(log, pass, b, j + 1)
  {
    ProductGrows(b, j);
    assert Product(b, j + 1) == b + Product(b, j);
    if Product(b, j) < |pass[b..]| {
      ShiftOne(log, pass, b, Product(b, j));
    }
  }

  lemma ShiftFits(log: seq<LogRow>, pass: seq<LogRow>, b: nat, iterations: nat)
    requires 0 < b < |pass| && iterations > 1 && FitsAfter(log, pass, b)
    ensures AllFit(log, pass, b, iterations) <==> AllFit(log + pass[..b], pass[b..], b, iterations - 1)
  {
    forall j: nat | 0 < j < iterations - 1
      ensures BatchFits(log + pass[..b], pass[b..], b, j) <==> BatchFits(log, pass, b, j + 1)
    {
      ShiftBatch(log, pass, b, j);
    }
    assert Product(b, 1) == b;
    forall j: nat | 0 < j < iterations && AllFit(log + pass[..b], pass[b..], b, iterations - 1)
      ensures BatchFits(log, pass, b, j)
    {
      assert j > 1 ==> BatchFits(log + pass[..b], pass[b..], b, j - 1);
    }
  }

  lemma ProductGrows(b: nat, j: nat)
    requires b > 0 && j > 0
    ensures Product(b, j) >= b
  {
  }

  lemma PassSplit(scheme: Scheme, prev: Link, rows: seq<PendingRow>, id: nat, k: nat)
    requires k <= |rows|
    ensures
      var pass := ChainRows(scheme, prev, rows, id);
      && pass[..k] == ChainRows(scheme, prev, rows[..k], id)
      && pass[k..] == ChainRows(scheme, LinkAfter(prev, pass[..k]), rows[k..], id + k)
  {
    assert rows == rows[..k] + rows[k..];
    ChainRowsConcat(scheme, prev, rows[..k], rows[k..], id);
  }

  /** The entries a flush drains. */
  function Front(t: Tables, n: nat): seq<PendingRow> {
    t.pending[..Min(n, |t.pending|)]
  }

  function Pass(scheme: Scheme, t: Tables, n: nat): seq<LogRow> {
    ChainRows(scheme, LatestLink(t.log), Front(t, n), t.nextId)
  }

  lemma FrontSplit(t: Tables, batchSize: nat, rest: nat)
    requires 0 < batchSize < |t.pending| && rest > 0
    ensures
      var rows := Front(t, batchSize + rest);
      && |rows| > batchSize && rows[..batchSize] == t.pending[..batchSize]
      && rows[batchSize..] == t.pending[batchSize..][..Min(rest, |t.pending| - batchSize)]
  {
  }

  /** The pass is that of the first batch, and, if the second lookup fits, the pass
      of what is left. */
  lemma PassAfterBatch(scheme: Scheme, t: Tables, d: Tables, batchSize: nat, rest: nat)
    requires 0 < batchSize < |t.pending| && d == Drained(scheme, t, batchSize) && rest > 0
    ensures
      var pass := Pass(scheme, t, batchSize + rest);
      && |pass| > batchSize && d.log == t.log + pass[..batchSize]
      && pass[batchSize].prevHash == LinkAfter(LatestLink(t.log), pass[..batchSize])
      && (FitsAfter(t.log, pass, batchSize) ==> Pass(scheme, d, rest) == pass[batchSize..])
  {
    var rows := Front(t, batchSize + rest);
    FrontSplit(t, batchSize, rest);
    PassSplit(scheme, LatestLink(t.log), rows, t.nextId, batchSize);
    ChainRowsAt(scheme, LatestLink(t.log), rows, t.nextId, batchSize);
    assert rows[batchSize..] == Front(d, rest);
  }

  /** When the second lookup does not fit, the row it links differs from the pass. */
  lemma MisfitShows(t: Tables, f: Tables, pass: seq<LogRow>, b: nat)
    requires b < |pass| && |f.log| > |t.log| + b
    requires pass[b].prevHash == LinkAfter(LatestLink(t.log), pass[..b])
    requires f.log[|t.log| + b].prevHash == LatestLink(t.log + pass[..b])
    requires !FitsAfter(t.log, pass, b)
    ensures f.log != t.log + pass
  {
    assert (t.log + pass)[|t.log| + b] == pass[b];
  }

  /** One batch is one pass. */
  lemma OneBatch(scheme: Scheme, t: Tables, batchSize: nat, iterations: nat)
    requires batchSize > 0 && (iterations <= 1 || |t.pending| <= batchSize)
    ensures Flushed(scheme, t, batchSize, iterations).log == t.log + Pass(scheme, t, Product(batchSize, iterations))
    ensures AllFit(t.log, Pass(scheme, t, Product(batchSize, iterations)), batchSize, iterations)
  {
    var n := Product(batchSize, iterations);
    if iterations == 0 || t.pending == [] {
      assert Front(t, n) == [] && t.log + [] == t.log;
    } else {
      var d := FlushFirst(scheme, t, batchSize, iterations);
      ProductGrows(batchSize, iterations);
      assert iterations == 1 ==> n == batchSize && Flushed(scheme, d, batchSize, 0) == d;
      assert Min(n, |t.pending|) == Min(batchSize, |t.pending|);
      assert iterations > 1 ==> d.pending == [];
      forall j: nat | 0 < j < iterations ensures Product(batchSize, j) >= |t.pending| {
        ProductGrows(batchSize, j);
      }
    }
  }

  lemma MisfitFails(log: seq<LogRow>, pass: seq<LogRow>, b: nat, more: nat)
    requires b < |pass| && more > 0 && !FitsAfter(log, pass, b)
    ensures !AllFit(log, pass, b, more + 1)
  {
    assert Product(b, 0) == 0 && Product(b, 1) == b;
    assert !BatchFits(log, pass, b, 1);
  }

  lemma Misfit(scheme: Scheme, t: Tables, batchSize: nat, more: nat, f: Tables, pass: seq<LogRow>)
    requires 0 < batchSize < |t.pending| && more > 0 && f == Flushed(scheme, t, batchSize, more + 1)
    requires pass == Pass(scheme, t, batchSize + Product(batchSize, more)) && !FitsAfter(t.log, pass, batchSize)
    ensures f.log != t.log + pass && !AllFit(t.log, pass, batchSize, more + 1)
  {
    var d := FlushFirst(scheme, t, batchSize, more + 1);
    ProductGrows(batchSize, more);
    PassAfterBatch(scheme, t, d, batchSize, Product(batchSize, more));
    FlushStarts(scheme, d, batchSize, more, f);
    MisfitShows(t, f, pass, batchSize);
    MisfitFails(t.log, pass, batchSize, more);
  }

  /** A flush appends what one pass over the same entries appends exactly when the
      lookups between its batches all fit. */
  lemma {:induction false} FlushIsPassIff(
      scheme: Scheme, t: Tables, batchSize: nat, iterations: nat, f: Tables, pass: seq<LogRow>)
    requires batchSize > 0 && f == Flushed(scheme, t, batchSize, iterations)
    requires pass == Pass(scheme, t, Product(batchSize, iterations))
    ensures f.log == t.log + pass <==> AllFit(t.log, pass, batchSize, iterations)
    decreases iterations, 1
  {
    if iterations <= 1 || |t.pending| <= batchSize {
      OneBatch(scheme, t, batchSize, iterations);
    } else if FitsAfter(t.log, pass, batchSize) {
      FitThenRest(scheme, t, batchSize, iterations - 1, f, pass);
    } else {
      Misfit(scheme, t, batchSize, iterations - 1, f, pass);
    }
  }

  /** The tables after a first batch after which the lookup fits. */
  lemma FittingBatch(scheme: Scheme, t: Tables, batchSize: nat, more: nat, pass: seq<LogRow>) returns (d: Tables)
    requires 0 < batchSize < |t.pending| && more > 0
    requires pass == Pass(scheme, t, batchSize + Product(batchSize, more)) && FitsAfter(t.log, pass, batchSize)
    ensures |pass| > batchSize && d.log == t.log + pass[..batchSize]
    ensures pass[batchSize..] == Pass(scheme, d, Product(batchSize, more))
    ensures Flushed(scheme, t, batchSize, more + 1) == Flushed(scheme, d, batchSize, more)
  {
    d := FlushFirst(scheme, t, batchSize, more + 1);
    ProductGrows(batchSize, more);
    PassAfterBatch(scheme, t, d, batchSize, Product(batchSize, more));
  }

  lemma SameTail(log: seq<LogRow>, pass: seq<LogRow>, b: nat)
    requires b <= |pass|
    ensures log + pass == (log + pass[..b]) + pass[b..]
  {
  }

  lemma {:induction false} FitThenRest(
      scheme: Scheme, t: Tables, batchSize: nat, more: nat, f: Tables, pass: seq<LogRow>)
    requires 0 < batchSize < |t.pending| && more > 0 && f == Flushed(scheme, t, batchSize, more + 1)
    requires pass == Pass(scheme, t, batchSize + Product(batchSize, more)) && FitsAfter(t.log, pass, batchSize)
    ensures f.log == t.log + pass <==> AllFit(t.log, pass, batchSize, more + 1)
    decreases more + 1, 0
  {
    var d := FittingBatch(scheme, t, batchSize, more, pass);
    FlushIsPassIff(scheme, d, batchSize, more, f, pass[batchSize..]);
    ShiftFits(t.log, pass, batchSize, more + 1);
    SameTail(t.log, pass, batchSize);
  }

  /** The lookup after the first `j` batches of this size, in plain numbers. */
  predicate LookupFitsAfter(log: seq<LogRow>, pass: seq<LogRow>, batchSize: nat, j: nat) {
    batchSize * j < |pass| ==>
      LatestLink(log + pass[..batchSize * j]) == LinkAfter(LatestLink(log), pass[..batchSize * j])
  }

  /** For every queue: a flush moves min(pending, batch_size * max_iterations)
      entries, and its batches do not show exactly when the lookup after each of them
      finds the row one pass links to there. */
  lemma {:induction false} BatchSizeDoesNotShowIff(scheme: Scheme, t: Tables, batchSize: nat, iterations: nat)
    requires batchSize > 0
    ensures
      var n := Min(batchSize * iterations, |t.pending|);
      var pass := ChainRows(scheme, LatestLink(t.log), t.pending[..n], t.nextId);
      var f := Flushed(scheme, t, batchSize, iterations);
      && |f.log| == |t.log| + n && f.pending == t.pending[n..]
      && (f.log == t.log + pass <==> forall j: nat | 0 < j < iterations :: LookupFitsAfter(t.log, pass, batchSize, j))
  {
    var f := Flushed(scheme, t, batchSize, iterations);
    var pass := Pass(scheme, t, Product(batchSize, iterations));
    ProductIsTimes(batchSize, iterations);
    FlushCounts(scheme, t, batchSize, iterations, f);
    FlushIsPassIff(scheme, t, batchSize, iterations, f, pass);
    forall j: nat
      ensures BatchFits(t.log, pass, batchSize, j) <==> LookupFitsAfter(t.log, pass, batchSize, j)
    {
      ProductIsTimes(batchSize, j);
    }
  }
}
