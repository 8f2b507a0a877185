/** The hash chain of the audit log (`engine/audit.py`): what a row hash covers
    and what a verifying chain therefore pins down.  The hash function is any
    function with 32-byte results; nothing is assumed about collisions, so the
    lemmas say which two texts would have to collide. */
module AuditChain {
  import Json
  import Text

  const DIGEST_LENGTH: nat := 32

  /** prev_hash: NULL on a tenant's first row. */
  datatype Link = Genesis | After(hash: string)

  /** A nullable uuid column and a nullable enum column. */
  datatype OptionalId = NoId | SomeId(id: Text.UuidText)
  datatype OptionalText = NoText | SomeText(text: string)

  /** The hashed fields; `details` is after `details or {}`. */
  datatype RowData = RowData(
    agentId: OptionalId, createdAt: int, details: Json.Json, memoryId: OptionalId,
    memoryType: OptionalText, operation: string, orgId: Text.UuidText, userId: OptionalId)

  /** The key of a row of audit_log_pending, drawn from a sequence. */
  datatype PendingId = PendingId(number: nat)

  /** A row of audit_log.  `source` is the pending row it was made from, which
      the table does not keep; the model tracks it to count rows. */
  datatype LogRow = LogRow(id: nat, source: PendingId, data: RowData, context: string, prevHash: Link, rowHash: string)

  /** The digest function and the canonical encoding of a row. */
  datatype Scheme = Scheme(hash: string -> string, encode: RowData -> string) {
    /** What the chain needs: fixed-width digests, and an encoding that is
        injective and never reads as a digest followed by an encoding. */
    ghost predicate Valid() {
      && (forall x :: |hash(x)| == DIGEST_LENGTH)
      && (forall d :: BraceOnlyInFront(encode(d)))
      && (forall c, d :: encode(c) == encode(d) ==> c == d)
    }

    ghost predicate Collision(x: string, y: string) {
      x != y && hash(x) == hash(y)
    }
  }

  predicate BraceOnlyInFront(s: string) {
    |s| > DIGEST_LENGTH && s[0] == '{' && s[DIGEST_LENGTH] != '{'
  }

  function Preimage(scheme: Scheme, prev: Link, d: RowData): string {
    (if prev.After? && prev.hash != "" then prev.hash else "") + scheme.encode(d)
  }

  /** `compute_row_hash` */
  function RowHash(scheme: Scheme, prev: Link, d: RowData): string {
    scheme.hash(Preimage(scheme, prev, d))
  }

  /** The first row is hashed alone, any other after the hash of the row before it. */
  lemma RowHashIs(scheme: Scheme, prev: Link, d: RowData)
    ensures prev.Genesis? ==> RowHash(scheme, prev, d) == scheme.hash(scheme.encode(d))
    ensures prev.After? ==> RowHash(scheme, prev, d) == scheme.hash(prev.hash + scheme.encode(d))
  {
    assert "" + scheme.encode(d) == scheme.encode(d);
  }

  predicate IsDigestOrGenesis(prev: Link) {
    prev.After? ==> |prev.hash| == DIGEST_LENGTH
  }

  /** What is hashed determines both the link and the row. */
  lemma PreimageInjective(scheme: Scheme, p: Link, c: RowData, q: Link, d: RowData)
    requires scheme.Valid()
    requires IsDigestOrGenesis(p) && IsDigestOrGenesis(q)
    requires Preimage(scheme, p, c) == Preimage(scheme, q, d)
    ensures p == q && c == d
  {
    var l, r := Preimage(scheme, p, c), Preimage(scheme, q, d);
    var x, y := scheme.encode(c), scheme.encode(d);
    assert BraceOnlyInFront(x) && BraceOnlyInFront(y);
    assert p.After? ==> l[..32] == p.hash && l[32..] == x && l[32] == x[0];
    assert q.After? ==> r[..32] == q.hash && r[32..] == y && r[32] == y[0];
    assert p.Genesis? ==> l == x;
    assert q.Genesis? ==> r == y;
  }

  /** Two row hashes agree exactly when the links and rows do, or else the two
      texts that were hashed collide. */
  lemma RowHashBinds(scheme: Scheme, p: Link, c: RowData, q: Link, d: RowData)
    requires scheme.Valid()
    requires IsDigestOrGenesis(p) && IsDigestOrGenesis(q)
    ensures RowHash(scheme, p, c) == RowHash(scheme, q, d) <==>
      (p == q && c == d) || scheme.Collision(Preimage(scheme, p, c), Preimage(scheme, q, d))
  {
    if Preimage(scheme, p, c) == Preimage(scheme, q, d) {
      PreimageInjective(scheme, p, c, q, d);
    }
  }

  /** The text a row of the log was hashed from. */
  function RowText(scheme: Scheme, r: LogRow): string {
    Preimage(scheme, r.prevHash, r.data)
  }

  ghost predicate RowsCollide(scheme: Scheme, r: LogRow, s: LogRow) {
    scheme.Collision(RowText(scheme, r), RowText(scheme, s))
  }

  /** The row's hash is the hash of its text, and its link is a digest. */
  predicate IsHashed(scheme: Scheme, r: LogRow) {
    r.rowHash == scheme.hash(RowText(scheme, r)) && IsDigestOrGenesis(r.prevHash)
  }

  // ----- verification

  /** Offline verification of one tenant's rows in log order. */
  predicate Verifies(scheme: Scheme, rows: seq<LogRow>) {
    forall i {:trigger LinkTo(rows, i)} | 0 <= i < |rows| ::
      && rows[i].prevHash == LinkTo(rows, i)
      && rows[i].rowHash == RowHash(scheme, rows[i].prevHash, rows[i].data)
  }

  /** The link a row at position `i` has in an unbroken line. */
  function LinkTo(rows: seq<LogRow>, i: nat): Link
    requires i <= |rows|
  {
    if i == 0 then Genesis else After(rows[i - 1].rowHash)
  }

  predicate SameData(a: seq<LogRow>, b: seq<LogRow>) {
    && |a| == |b|
    && forall i | 0 <= i < |a| :: a[i].data == b[i].data
  }

  lemma LastRowBinds(scheme: Scheme, a: seq<LogRow>, b: seq<LogRow>)
    requires scheme.Valid() && a != [] && b != []
    requires Verifies(scheme, a) && Verifies(scheme, b)
    requires a[|a| - 1].rowHash == b[|b| - 1].rowHash
    ensures RowsCollide(scheme, a[|a| - 1], b[|b| - 1])
      || (a[|a| - 1].data == b[|b| - 1].data && LinkTo(a, |a| - 1) == LinkTo(b, |b| - 1))
  {
    var m, n := |a| - 1, |b| - 1;
    DigestLinks(scheme, a, m);
    DigestLinks(scheme, b, n);
    assert a[m].prevHash == LinkTo(a, m) && b[n].prevHash == LinkTo(b, n);
    RowHashBinds(scheme, a[m].prevHash, a[m].data, b[n].prevHash, b[n].data);
  }

  lemma VerifiesPrefix(scheme: Scheme, rows: seq<LogRow>, n: nat)
    requires n <= |rows| && Verifies(scheme, rows)
    ensures Verifies(scheme, rows[..n])
  {
    var front := rows[..n];
    forall i | 0 <= i < n
      ensures front[i].prevHash == LinkTo(front, i)
      ensures front[i].rowHash == RowHash(scheme, front[i].prevHash, front[i].data)
    {
      assert front[i] == rows[i] && LinkTo(front, i) == LinkTo(rows, i);
    }
  }

  lemma SameDataExtends(a: seq<LogRow>, b: seq<LogRow>)
    requires a != [] && b != [] && a[|a| - 1].data == b[|b| - 1].data
    requires SameData(a[..|a| - 1], b[..|b| - 1])
    ensures SameData(a, b)
  {
    forall i | 0 <= i < |a|
      ensures a[i].data == b[i].data
    {
      if i < |a| - 1 {
        assert a[..|a| - 1][i].data == b[..|b| - 1][i].data;
      }
    }
  }

  /** The rows at the same distance from the ends of the two chains collide. */
  ghost predicate CollideFromEnd(scheme: Scheme, a: seq<LogRow>, b: seq<LogRow>, k: nat) {
    k < |a| && k < |b| && RowsCollide(scheme, a[|a| - 1 - k], b[|b| - 1 - k])
  }

  /** Two verifying chains that end in the same hash have the same length and the
      same hashed data in every row, or else two of their rows, as far from the end
      in the one as in the other, were hashed from colliding texts. */
  lemma {:induction false} ChainBinds(scheme: Scheme, a: seq<LogRow>, b: seq<LogRow>)
    requires scheme.Valid() && a != [] && b != []
    requires Verifies(scheme, a) && Verifies(scheme, b)
    requires a[|a| - 1].rowHash == b[|b| - 1].rowHash
    ensures SameData(a, b) || exists k: nat :: CollideFromEnd(scheme, a, b, k)
    decreases |a|
  {
    var m, n := |a| - 1, |b| - 1;
    LastRowBinds(scheme, a, b);
    if RowsCollide(scheme, a[m], b[n]) {
      assert CollideFromEnd(scheme, a, b, 0);
    } else if m == 0 {
      SameDataExtends(a, b);
    } else {
      VerifiesPrefix(scheme, a, m);
      VerifiesPrefix(scheme, b, n);
      ChainBinds(scheme, a[..m], b[..n]);
      if SameData(a[..m], b[..n]) {
        SameDataExtends(a, b);
      } else {
        var k: nat :| CollideFromEnd(scheme, a[..m], b[..n], k);
        assert CollideFromEnd(scheme, a, b, k + 1);
      }
    }
  }

  lemma DigestLinks(scheme: Scheme, rows: seq<LogRow>, i: nat)
    requires scheme.Valid() && Verifies(scheme, rows) && i < |rows|
    ensures IsDigestOrGenesis(rows[i].prevHash)
  {
    assert rows[i].prevHash == LinkTo(rows, i);
    if i > 0 {
      assert rows[i - 1].prevHash == LinkTo(rows, i - 1);
      assert rows[i - 1].rowHash == scheme.hash(Preimage(scheme, rows[i - 1].prevHash, rows[i - 1].data));
    }
  }

  /** The request context is not hashed: changing it goes unnoticed. */
  lemma ContextIsNotCovered(scheme: Scheme, rows: seq<LogRow>, i: nat, context: string)
    requires Verifies(scheme, rows) && i < |rows|
    ensures Verifies(scheme, rows[i := rows[i].(context := context)])
  {
    var edited := rows[i := rows[i].(context := context)];
    assert forall k | 0 <= k < |rows| ::
      edited[k].prevHash == rows[k].prevHash && edited[k].rowHash == rows[k].rowHash && edited[k].data == rows[k].data;
    forall k | 0 <= k < |rows|
      ensures edited[k].prevHash == LinkTo(edited, k)
      ensures edited[k].rowHash == RowHash(scheme, edited[k].prevHash, edited[k].data)
    {
      assert rows[k].prevHash == LinkTo(rows, k);
    }
  }
}
