/** The Merkle root of a forget certificate (`forget_proof/certificate.py`).
    Digests are free terms: SHA-256 is collision-free by construction, and a
    digest of a leaf is never the digest of two concatenated digests. */
module Merkle {
  import opened Basics
  import Text

  datatype Digest =
    | LeafDigest(text: string)
    | PairDigest(left: Digest, right: Digest)

  datatype Leaf = Leaf(memoryId: string, contentHash: string, auditEntryHash: string)

  datatype MerkleResult = Root(digest: Digest) | EmptyTree

  function OrDash(s: string): string {
    if s == "" then "-" else s
  }

  /** `Leaf.digest` */
  function DigestOf(leaf: Leaf): Digest {
    LeafDigest(leaf.memoryId + ":" + OrDash(leaf.contentHash) + ":" + OrDash(leaf.auditEntryHash))
  }

  function Digests(leaves: seq<Leaf>): seq<Digest> {
    seq(|leaves|, i requires 0 <= i < |leaves| => DigestOf(leaves[i]))
  }

  function Lookup(m: map<string, string>, key: string): string {
    if key in m then m[key] else ""
  }

  /** `build_leaves`: a missing hash is the empty string. */
  function BuildLeaves(
      memoryIds: seq<string>, contentHashes: map<string, string>, auditHashes: map<string, string>): seq<Leaf>
  {
    seq(|memoryIds|, i requires 0 <= i < |memoryIds| =>
      Leaf(memoryIds[i], Lookup(contentHashes, memoryIds[i]), Lookup(auditHashes, memoryIds[i])))
  }

  /** The text of a leaf; a hash that is missing leaves a dash. */
  lemma LeafText(leaf: Leaf)
    ensures leaf.contentHash != "" && leaf.auditEntryHash != "" ==>
      DigestOf(leaf) == LeafDigest(leaf.memoryId + ":" + leaf.contentHash + ":" + leaf.auditEntryHash)
    ensures leaf.contentHash != "" && leaf.auditEntryHash == "" ==>
      DigestOf(leaf) == LeafDigest(leaf.memoryId + ":" + leaf.contentHash + ":-")
    ensures leaf.contentHash == "" && leaf.auditEntryHash != "" ==>
      DigestOf(leaf) == LeafDigest(leaf.memoryId + ":-:" + leaf.auditEntryHash)
    ensures leaf.contentHash == leaf.auditEntryHash == "" ==> DigestOf(leaf) == LeafDigest(leaf.memoryId + ":-:-")
  {
    assert leaf.memoryId + ":" + "-" + ":" == leaf.memoryId + ":-:";
    assert leaf.memoryId + ":" + leaf.contentHash + ":" + "-" == leaf.memoryId + ":" + leaf.contentHash + ":-";
    assert leaf.memoryId + ":" + "-" + ":" + "-" == leaf.memoryId + ":-:-";
  }

  /** The hash field is not the empty string or the dash that stands for it. */
  predicate Given(hash: string) {
    hash != "" && hash != "-"
  }

  /** What a leaf commits to: two leaves of UUIDs whose content hashes hold no colon
      share a digest exactly when they have the same id and, as far as one of them is
      given, the same hashes. */
  lemma LeafBinding(a: Leaf, b: Leaf)
    requires Text.IsUuidText(a.memoryId) && Text.IsUuidText(b.memoryId)
    requires Text.Lacks(a.contentHash, ':') && Text.Lacks(b.contentHash, ':')
    ensures DigestOf(a) == DigestOf(b) <==>
      && a.memoryId == b.memoryId
      && (Given(a.contentHash) || Given(b.contentHash) ==> a.contentHash == b.contentHash)
      && (Given(a.auditEntryHash) || Given(b.auditEntryHash) ==> a.auditEntryHash == b.auditEntryHash)
  {
    var ca, cb := OrDash(a.contentHash), OrDash(b.contentHash);
    var ha, hb := OrDash(a.auditEntryHash), OrDash(b.auditEntryHash);
    assert DigestOf(a).text == a.memoryId + [':'] + (ca + [':'] + ha);
    assert DigestOf(b).text == b.memoryId + [':'] + (cb + [':'] + hb);
    if DigestOf(a) == DigestOf(b) {
      Text.SplitAtSeparator(a.memoryId, ca + [':'] + ha, b.memoryId, cb + [':'] + hb, ':');
      Text.SplitAtSeparator(ca, ha, cb, hb, ':');
    }
  }

  // ----- the tree

  /** One round: neighbours are hashed together, an odd last node with itself. */
  function Pairs(level: seq<Digest>): (next: seq<Digest>)
    ensures |next| == (|level| + 1) / 2
  {
    seq((|level| + 1) / 2, i requires 0 <= i < (|level| + 1) / 2 =>
      PairDigest(level[2 * i], level[if 2 * i + 1 < |level| then 2 * i + 1 else 2 * i]))
  }

  function RootOf(level: seq<Digest>): Digest
    requires level != []
    decreases |level|
  {
    if |level| == 1 then level[0] else RootOf(Pairs(level))
  }

  // ----- sorting

  ghost predicate TotalOrder(leq: (Digest, Digest) -> bool) {
    && (forall a, b :: leq(a, b) || leq(b, a))
    && (forall a, b :: leq(a, b) && leq(b, a) ==> a == b)
    && (forall a, b, c :: leq(a, b) && leq(b, c) ==> leq(a, c))
  }

  ghost predicate Sorted(leq: (Digest, Digest) -> bool, s: seq<Digest>) {
    forall i, j | 0 <= i < j < |s| :: leq(s[i], s[j])
  }

  function Insert(leq: (Digest, Digest) -> bool, d: Digest, s: seq<Digest>): seq<Digest> {
    if s == [] || leq(d, s[0]) then [d] + s else [s[0]] + Insert(leq, d, s[1..])
  }

  function Sort(leq: (Digest, Digest) -> bool, s: seq<Digest>): seq<Digest> {
    if s == [] then [] else Insert(leq, s[0], Sort(leq, s[1..]))
  }

  lemma {:induction false} InsertKeeps(leq: (Digest, Digest) -> bool, d: Digest, s: seq<Digest>)
    ensures multiset(Insert(leq, d, s)) == multiset{d} + multiset(s)
    decreases |s|
  {
    if s == [] || leq(d, s[0]) {
      assert multiset([d] + s) == multiset{d} + multiset(s);
    } else {
      InsertKeeps(leq, d, s[1..]);
      assert s == [s[0]] + s[1..];
    }
  }

  lemma {:induction false} InsertSorts(leq: (Digest, Digest) -> bool, d: Digest, s: seq<Digest>)
    requires TotalOrder(leq) && Sorted(leq, s)
    ensures Sorted(leq, Insert(leq, d, s))
    ensures multiset(Insert(leq, d, s)) == multiset{d} + multiset(s)
    decreases |s|
  {
    InsertKeeps(leq, d, s);
    if s != [] && !leq(d, s[0]) {
      var t := Insert(leq, d, s[1..]);
      InsertSorts(leq, d, s[1..]);
      forall k | 0 <= k < |t|
        ensures leq(s[0], t[k])
      {
        assert t[k] in multiset(t);
        if t[k] != d {
          assert t[k] in s[1..];
        }
      }
    }
  }

  lemma {:induction false} SortSorts(leq: (Digest, Digest) -> bool, s: seq<Digest>)
    requires TotalOrder(leq)
    ensures Sorted(leq, Sort(leq, s)) && multiset(Sort(leq, s)) == multiset(s)
    ensures |Sort(leq, s)| == |s|
    decreases |s|
  {
    if s != [] {
      SortSorts(leq, s[1..]);
      InsertSorts(leq, s[0], Sort(leq, s[1..]));
      assert s == [s[0]] + s[1..];
    }
    assert |multiset(Sort(leq, s))| == |multiset(s)|;
  }

  lemma SameHead(leq: (Digest, Digest) -> bool, s: seq<Digest>, t: seq<Digest>)
    requires TotalOrder(leq) && Sorted(leq, s) && Sorted(leq, t)
    requires s != [] && t != [] && s[0] in t && t[0] in s
    ensures s[0] == t[0]
  {
    assert leq(s[0], s[0]);
    var j :| 0 <= j < |t| && t[j] == s[0];
    var i :| 0 <= i < |s| && s[i] == t[0];
  }

  lemma WithoutHead(s: seq<Digest>)
    requires s != []
    ensures multiset(s[1..]) == multiset(s) - multiset{s[0]}
  {
    assert s == [s[0]] + s[1..];
  }

  lemma SameLength(s: seq<Digest>, t: seq<Digest>)
    requires multiset(s) == multiset(t)
    ensures |s| == |t| && (s != [] ==> s[0] in t && t[0] in s)
  {
    assert |s| == |multiset(s)| == |multiset(t)| == |t|;
    assert s != [] ==> s[0] in multiset(s) && t[0] in multiset(t);
  }

  lemma {:induction false} SortedUnique(leq: (Digest, Digest) -> bool, s: seq<Digest>, t: seq<Digest>)
    requires TotalOrder(leq) && Sorted(leq, s) && Sorted(leq, t)
    requires multiset(s) == multiset(t)
    ensures s == t
    decreases |s|
  {
    SameLength(s, t);
    if s != [] {
      SameHead(leq, s, t);
      WithoutHead(s);
      WithoutHead(t);
      SortedUnique(leq, s[1..], t[1..]);
      assert s == [s[0]] + s[1..] && t == [t[0]] + t[1..];
    }
  }

  /** The root of a certificate: leaf digests, sorted, reduced. */
  ghost function CertificateRoot(leq: (Digest, Digest) -> bool, leaves: seq<Leaf>): Digest
    requires TotalOrder(leq) && leaves != []
  {
    SortSorts(leq, Digests(leaves));
    RootOf(Sort(leq, Digests(leaves)))
  }

  /** `build_merkle_root` */
  method BuildMerkleRoot(leaves: seq<Leaf>, leq: (Digest, Digest) -> bool) returns (result: MerkleResult)
    requires TotalOrder(leq)
    ensures leaves == [] <==> result == EmptyTree
    ensures leaves != [] ==> result == Root(CertificateRoot(leq, leaves))
  {
    if leaves == [] {
      return EmptyTree;
    }
    SortSorts(leq, Digests(leaves));
    var level := Sort(leq, Digests(leaves));
    ghost var bottom := level;
    while |level| > 1
      invariant level != [] && RootOf(level) == RootOf(bottom)
      decreases |level|
    {
      var nextLevel := [];
      var i := 0;
      while i < |level|
        invariant i % 2 == 0 && 0 <= i <= |level| + 1
        invariant |nextLevel| == i / 2 && nextLevel == Pairs(level)[..i / 2]
      {
        var left := level[i];
        var right := if i + 1 < |level| then level[i + 1] else left;
        nextLevel := nextLevel + [PairDigest(left, right)];
        i := i + 2;
      }
      assert nextLevel == Pairs(level);
      level := nextLevel;
    }
    result := Root(level[0]);
  }

  // ----- binding

  /** A full binary tree of height `h` over leaf digests. */
  predicate Perfect(d: Digest, h: nat) {
    if h == 0 then d.LeafDigest?
    else d.PairDigest? && Perfect(d.left, h - 1) && Perfect(d.right, h - 1)
  }

  predicate AllPerfect(level: seq<Digest>, h: nat) {
    forall i | 0 <= i < |level| :: Perfect(level[i], h)
  }

  /** Rounds needed to reduce a level of `n` nodes to its root. */
  function Rounds(n: nat): nat {
    if n <= 1 then 0 else 1 + Rounds((n + 1) / 2)
  }

  lemma {:induction false} PerfectHeight(d: Digest, h: nat, k: nat)
    requires Perfect(d, h) && Perfect(d, k)
    ensures h == k
    decreases h
  {
    if h > 0 && k > 0 {
      PerfectHeight(d.left, h - 1, k - 1);
    }
  }

  lemma {:induction false} RootIsPerfect(level: seq<Digest>, h: nat)
    requires level != [] && AllPerfect(level, h)
    ensures Perfect(RootOf(level), h + Rounds(|level|))
    decreases |level|
  {
    if |level| > 1 {
      RootIsPerfect(Pairs(level), h + 1);
    }
  }

  lemma PairsDistinct(level: seq<Digest>)
    requires Distinct(level)
    ensures Distinct(Pairs(level))
  {
    var next := Pairs(level);
    forall i, j | 0 <= i < j < |next|
      ensures next[i] != next[j]
    {
      assert level[2 * i] != level[2 * j];
    }
  }

  /** Only an odd last node is hashed with itself. */
  lemma LastPairShowsParity(level: seq<Digest>)
    requires level != [] && Distinct(level)
    ensures
      var last := Pairs(level)[|Pairs(level)| - 1];
      |level| % 2 == 0 <==> last.left != last.right
  {
    var i := |Pairs(level)| - 1;
    if |level| % 2 == 0 {
      assert level[2 * i] != level[2 * i + 1];
    }
  }

  /** Without repeated nodes, one round can be undone. */
  lemma PairsInjective(a: seq<Digest>, b: seq<Digest>)
    requires Distinct(a) && Distinct(b) && Pairs(a) == Pairs(b)
    ensures a == b
  {
    var p, q := Pairs(a), Pairs(b);
    assert |p| == |q|;
    if a != [] && b != [] {
      LastPairShowsParity(a);
      LastPairShowsParity(b);
    }
    forall i | 0 <= i < |a|
      ensures a[i] == b[i]
    {
      assert p[i / 2] == q[i / 2];
    }
  }

  /** The root binds a list of distinct nodes of one height, whatever its length. */
  lemma {:induction false} RootBindsLevel(a: seq<Digest>, b: seq<Digest>, h: nat)
    requires a != [] && b != [] && Distinct(a) && Distinct(b)
    requires AllPerfect(a, h) && AllPerfect(b, h)
    requires RootOf(a) == RootOf(b)
    ensures a == b
    decreases |a|
  {
    RootIsPerfect(a, h);
    RootIsPerfect(b, h);
    PerfectHeight(RootOf(a), h + Rounds(|a|), h + Rounds(|b|));
    if |a| > 1 && |b| > 1 {
      PairsDistinct(a);
      PairsDistinct(b);
      RootBindsLevel(Pairs(a), Pairs(b), h + 1);
      PairsInjective(a, b);
    }
  }

  lemma SortKeepsDistinct(leq: (Digest, Digest) -> bool, s: seq<Digest>)
    requires TotalOrder(leq) && Distinct(s)
    ensures Distinct(Sort(leq, s))
  {
    SortSorts(leq, s);
    var t := Sort(leq, s);
    DistinctIffOnce(s);
    DistinctIffOnce(t);
    forall d | d in t
      ensures multiset(t)[d] == 1
    {
      assert d in multiset(s);
    }
  }

  lemma {:induction false} DistinctIffOnce(s: seq<Digest>)
    ensures Distinct(s) <==> forall d | d in s :: multiset(s)[d] == 1
    decreases |s|
  {
    if s != [] {
      var t := s[..|s| - 1];
      var last := s[|s| - 1];
      assert s == t + [last];
      DistinctIffOnce(t);
      assert multiset(s) == multiset(t) + multiset{last};
      assert forall d :: d in t <==> d in multiset(t);
      if Distinct(s) {
        assert last !in t;
      }
      if forall d | d in s :: multiset(s)[d] == 1 {
        assert last in s && last !in multiset(t);
        forall d | d in t ensures multiset(t)[d] == 1 {
          assert d in s && d in multiset(t);
        }
        forall i, j | 0 <= i < j < |s| ensures s[i] != s[j] {
          assert s[i] in t;
          assert j < |t| ==> t[i] != t[j];
        }
      }
    }
  }

  /** Two certificates over pairwise distinct leaf digests, of any sizes, have
      the same root exactly when they list the same digests, in any order. */
  lemma RootIffSameLeaves(leq: (Digest, Digest) -> bool, xs: seq<Leaf>, ys: seq<Leaf>)
    requires TotalOrder(leq) && xs != [] && ys != []
    requires Distinct(Digests(xs)) && Distinct(Digests(ys))
    ensures CertificateRoot(leq, xs) == CertificateRoot(leq, ys)
      <==> multiset(Digests(xs)) == multiset(Digests(ys))
  {
    var a, b := Sort(leq, Digests(xs)), Sort(leq, Digests(ys));
    SortSorts(leq, Digests(xs));
    SortSorts(leq, Digests(ys));
    SortKeepsDistinct(leq, Digests(xs));
    SortKeepsDistinct(leq, Digests(ys));
    SortedAreLeaves(leq, xs);
    SortedAreLeaves(leq, ys);
    if RootOf(a) == RootOf(b) {
      RootBindsLevel(a, b, 0);
    }
    if multiset(a) == multiset(b) {
      SortedUnique(leq, a, b);
    }
  }

  lemma SortedAreLeaves(leq: (Digest, Digest) -> bool, xs: seq<Leaf>)
    requires TotalOrder(leq)
    ensures AllPerfect(Sort(leq, Digests(xs)), 0)
  {
    SortSorts(leq, Digests(xs));
    var a := Sort(leq, Digests(xs));
    forall i | 0 <= i < |a|
      ensures Perfect(a[i], 0)
    {
      assert a[i] in multiset(Digests(xs));
    }
  }

  /** The root never depends on the order the leaves come in. */
  lemma RootOrderIndependent(leq: (Digest, Digest) -> bool, xs: seq<Leaf>, ys: seq<Leaf>)
    requires TotalOrder(leq) && xs != [] && multiset(xs) == multiset(ys)
    ensures ys != [] && CertificateRoot(leq, xs) == CertificateRoot(leq, ys)
  {
    assert |multiset(xs)| == |multiset(ys)|;
    DigestsMultiset(xs, ys);
    SortSorts(leq, Digests(xs));
    SortSorts(leq, Digests(ys));
    SortedUnique(leq, Sort(leq, Digests(xs)), Sort(leq, Digests(ys)));
  }

  lemma DigestsConcat(xs: seq<Leaf>, ys: seq<Leaf>)
    ensures Digests(xs + ys) == Digests(xs) + Digests(ys)
  {
  }

  function Without(ys: seq<Leaf>, j: nat): seq<Leaf>
    requires j < |ys|
  {
    ys[..j] + ys[j + 1..]
  }

  lemma WithoutOne(ys: seq<Leaf>, j: nat)
    requires j < |ys|
    ensures multiset(Without(ys, j)) == multiset(ys) - multiset{ys[j]}
    ensures multiset(Digests(ys)) == multiset(Digests(Without(ys, j))) + multiset{DigestOf(ys[j])}
  {
    var l, r := ys[..j], ys[j + 1..];
    assert ys == l + ([ys[j]] + r);
    DigestsConcat(l, r);
    DigestsConcat(l, [ys[j]] + r);
    DigestsConcat([ys[j]], r);
    assert Digests([ys[j]]) == [DigestOf(ys[j])];
  }

  lemma {:induction false} DigestsMultiset(xs: seq<Leaf>, ys: seq<Leaf>)
    requires multiset(xs) == multiset(ys)
    ensures multiset(Digests(xs)) == multiset(Digests(ys))
    decreases |xs|
  {
    assert |multiset(xs)| == |multiset(ys)|;
    if xs == [] {
      assert Digests(xs) == Digests(ys);
    } else {
      assert xs[0] in multiset(ys);
      var j :| 0 <= j < |ys| && ys[j] == xs[0];
      WithoutOne(xs, 0);
      WithoutOne(ys, j);
      DigestsMultiset(Without(xs, 0), Without(ys, j));
    }
  }

  // ----- repeated leaves

  /** How many leaves the duplicated tree over `n` leaves really has. */
  function Width(n: nat): nat {
    if n <= 1 then 1 else 2 * Width((n + 1) / 2)
  }

  /** Which of the `n` leaves stands at position `i` of the duplicated tree. */
  function Source(n: nat, i: nat): (k: nat)
    requires n > 0 && i < Width(n)
    ensures k < n
  {
    if n <= 1 then 0
    else
      var k := 2 * Source((n + 1) / 2, i / 2) + i % 2;
      if k < n then k else n - 1
  }

  /** The level with every duplication written out. */
  function Padded(level: seq<Digest>): seq<Digest>
    requires level != []
  {
    seq(Width(|level|), i requires 0 <= i < Width(|level|) => level[Source(|level|, i)])
  }

  lemma {:induction false} SourceOfChildren(n: nat, i: nat)
    requires n > 1 && i < Width((n + 1) / 2)
    ensures
      var k := Source((n + 1) / 2, i);
      && Source(n, 2 * i) == 2 * k
      && Source(n, 2 * i + 1) == if 2 * k + 1 < n then 2 * k + 1 else 2 * k
  {
    assert (2 * i) / 2 == i && (2 * i) % 2 == 0;
    assert (2 * i + 1) / 2 == i && (2 * i + 1) % 2 == 1;
  }

  lemma PaddedAt(level: seq<Digest>, i: nat)
    requires level != [] && i < Width(|level|)
    ensures |Padded(level)| == Width(|level|) && Padded(level)[i] == level[Source(|level|, i)]
  {
  }

  lemma PairAt(level: seq<Digest>, k: nat)
    requires k < (|level| + 1) / 2
    ensures Pairs(level)[k] == PairDigest(level[2 * k], level[if 2 * k + 1 < |level| then 2 * k + 1 else 2 * k])
  {
  }

  lemma DoubleWidth(n: nat, i: nat)
    requires n > 1 && i < Width((n + 1) / 2)
    ensures Width(n) == 2 * Width((n + 1) / 2) && 2 * i + 1 < Width(n)
  {
  }

  /** The two positions below `i` in the padded level. */
  lemma PaddedChildren(a: seq<Digest>, i: nat)
    requires |a| > 1 && i < Width((|a| + 1) / 2)
    ensures 2 * i + 1 < |Padded(a)|
    ensures
      var k := Source((|a| + 1) / 2, i);
      Padded(a)[2 * i] == a[2 * k] && Padded(a)[2 * i + 1] == a[if 2 * k + 1 < |a| then 2 * k + 1 else 2 * k]
  {
    SourceOfChildren(|a|, i);
    DoubleWidth(|a|, i);
    PaddedAt(a, 2 * i);
    PaddedAt(a, 2 * i + 1);
  }

  lemma {:induction false} PaddedPairs(a: seq<Digest>, i: nat)
    requires |a| > 1 && i < Width((|a| + 1) / 2)
    ensures Padded(Pairs(a))[i] == PairDigest(Padded(a)[2 * i], Padded(a)[2 * i + 1])
  {
    PaddedChildren(a, i);
    PaddedAt(Pairs(a), i);
    PairAt(a, Source((|a| + 1) / 2, i));
  }

  lemma SamePaddingOfPairs(a: seq<Digest>, b: seq<Digest>)
    requires |a| > 1 && |b| > 1
    ensures Padded(Pairs(a)) == Padded(Pairs(b)) <==> Padded(a) == Padded(b)
  {
    var p, q := Pairs(a), Pairs(b);
    if Padded(p) == Padded(q) {
      assert |Padded(p)| == |Padded(q)|;
      forall i | 0 <= i < |Padded(a)|
        ensures Padded(a)[i] == Padded(b)[i]
      {
        PaddedPairs(a, i / 2);
        PaddedPairs(b, i / 2);
      }
    }
    if Padded(a) == Padded(b) {
      assert |Padded(a)| == |Padded(b)|;
      forall i | 0 <= i < |Padded(p)|
        ensures Padded(p)[i] == Padded(q)[i]
      {
        PaddedPairs(a, i);
        PaddedPairs(b, i);
      }
    }
  }

  /** For lists with any repetitions, the root forgets exactly the difference
      between a level and its padding. */
  lemma {:induction false} RootIffSamePadding(a: seq<Digest>, b: seq<Digest>, h: nat)
    requires a != [] && b != [] && AllPerfect(a, h) && AllPerfect(b, h)
    ensures RootOf(a) == RootOf(b) <==> Padded(a) == Padded(b)
    decreases |a|
  {
    RootIsPerfect(a, h);
    RootIsPerfect(b, h);
    if |a| == 1 && |b| == 1 {
      assert Padded(a) == a && Padded(b) == b;
    } else if |a| == 1 || |b| == 1 {
      if RootOf(a) == RootOf(b) {
        PerfectHeight(RootOf(a), h + Rounds(|a|), h + Rounds(|b|));
      }
      WidthPositive((|a| + 1) / 2);
      WidthPositive((|b| + 1) / 2);
      assert |Padded(a)| != |Padded(b)|;
    } else {
      var p, q := Pairs(a), Pairs(b);
      RootIffSamePadding(p, q, h + 1);
      SamePaddingOfPairs(a, b);
    }
  }

  lemma {:induction false} WidthPositive(n: nat)
    ensures Width(n) > 0
  {
    if n > 1 {
      WidthPositive((n + 1) / 2);
    }
  }

  // ----- reading the tree

  /** The leaves of a tree from left to right. */
  function Fringe(d: Digest): seq<Digest> {
    match d
    case LeafDigest(_) => [d]
    case PairDigest(left, right) => Fringe(left) + Fringe(right)
  }

  function FringeOf(level: seq<Digest>, n: nat): seq<Digest>
    requires n <= |level|
  {
    if n == 0 then [] else FringeOf(level, n - 1) + Fringe(level[n - 1])
  }

  lemma {:induction false} PaddedPairsFringe(a: seq<Digest>, n: nat)
    requires |a| > 1 && n <= |Padded(Pairs(a))| && 2 * n <= |Padded(a)|
    ensures FringeOf(Padded(Pairs(a)), n) == FringeOf(Padded(a), 2 * n)
    decreases n
  {
    if n > 0 {
      PaddedPairsFringe(a, n - 1);
      PaddedPairs(a, n - 1);
    }
  }

  lemma {:induction false} RootFringe(level: seq<Digest>)
    requires level != []
    ensures Fringe(RootOf(level)) == FringeOf(Padded(level), |Padded(level)|)
    decreases |level|
  {
    if |level| == 1 {
      assert Padded(level) == level && FringeOf(level, 1) == FringeOf(level, 0) + Fringe(level[0]);
    } else {
      RootFringe(Pairs(level));
      PaddedPairsFringe(level, |Padded(Pairs(level))|);
    }
  }

  lemma {:induction false} LeavesAreTheirFringe(level: seq<Digest>, n: nat)
    requires n <= |level| && forall i | 0 <= i < n :: level[i].LeafDigest?
    ensures FringeOf(level, n) == level[..n]
    decreases n
  {
    if n > 0 {
      LeavesAreTheirFringe(level, n - 1);
    }
  }

  lemma {:induction false} SourceInOrder(n: nat, i: nat)
    requires i < n
    ensures i < Width(n) && Source(n, i) == i
    decreases n
  {
    if n > 1 {
      SourceInOrder((n + 1) / 2, i / 2);
    }
  }

  /** The tree over some leaves, read from left to right, has them in their order; what
      follows are repetitions of leaves. */
  lemma RootHoldsLeavesInOrder(leaves: seq<Digest>)
    requires leaves != [] && forall i | 0 <= i < |leaves| :: leaves[i].LeafDigest?
    ensures
      var fringe := Fringe(RootOf(leaves));
      |fringe| >= |leaves| && fringe[..|leaves|] == leaves && forall d | d in fringe :: d in leaves
  {
    var padded := Padded(leaves);
    RootFringe(leaves);
    LeavesAreTheirFringe(padded, |padded|);
    assert padded[..|padded|] == padded;
    SourceInOrder(|leaves|, |leaves| - 1);
    forall i | 0 <= i < |leaves|
      ensures padded[i] == leaves[i]
    {
      SourceInOrder(|leaves|, i);
    }
  }

  /** Why `forget` deduplicates its targets: a repeated last leaf is invisible. */
  lemma RepeatedLeafCollides(a: Digest, b: Digest, c: Digest)
    ensures RootOf([a, b, c]) == RootOf([a, b, c, c])
    ensures multiset([a, b, c]) != multiset([a, b, c, c])
  {
    assert Pairs([a, b, c]) == [PairDigest(a, b), PairDigest(c, c)];
    assert Pairs([a, b, c, c]) == [PairDigest(a, b), PairDigest(c, c)];
    assert |multiset([a, b, c])| != |multiset([a, b, c, c])|;
  }

  // ----- the certificate of a forget

  /** Deduplicated UUIDs, and content hashes that are hex digests or missing. */
  predicate IsForgetCertificate(ids: seq<string>, contentHashes: map<string, string>) {
    && ids != []
    && (forall i | 0 <= i < |ids| :: Text.IsUuidText(ids[i]))
    && (forall i, j | 0 <= i < j < |ids| :: ids[i] != ids[j])
    && (forall id | id in contentHashes :: Text.Lacks(contentHashes[id], ':'))
  }

  /** One of the two certificates has a hash for the memory. */
  predicate GivenIn(hashes: map<string, string>, hashes': map<string, string>, id: string) {
    (id in hashes && Given(hashes[id])) || (id in hashes' && Given(hashes'[id]))
  }

  /** The two certificates have the same hash for the memory, if either has one. */
  predicate SameHash(hashes: map<string, string>, hashes': map<string, string>, id: string) {
    GivenIn(hashes, hashes', id) ==> id in hashes && id in hashes' && hashes[id] == hashes'[id]
  }

  /** The two certificates are about the same memories and say the same of each. */
  ghost predicate SameClaims(
      ids: seq<string>, hashes: map<string, string>, audits: map<string, string>,
      ids': seq<string>, hashes': map<string, string>, audits': map<string, string>)
  {
    && (forall id :: id in ids <==> id in ids')
    && (forall id | id in ids :: SameHash(hashes, hashes', id) && SameHash(audits, audits', id))
  }

  /** The leaves of two certificates for memories, in terms of the hash maps. */
  lemma LeavesAgree(
      ids: seq<string>, hashes: map<string, string>, audits: map<string, string>, i: nat,
      ids': seq<string>, hashes': map<string, string>, audits': map<string, string>, j: nat)
    requires IsForgetCertificate(ids, hashes) && IsForgetCertificate(ids', hashes') && i < |ids| && j < |ids'|
    ensures
      var a, b := BuildLeaves(ids, hashes, audits)[i], BuildLeaves(ids', hashes', audits')[j];
      DigestOf(a) == DigestOf(b) <==>
        ids[i] == ids'[j] && SameHash(hashes, hashes', ids[i]) && SameHash(audits, audits', ids[i])
  {
    LeafBinding(BuildLeaves(ids, hashes, audits)[i], BuildLeaves(ids', hashes', audits')[j]);
  }

  lemma ForgetLeavesDistinct(ids: seq<string>, hashes: map<string, string>, audits: map<string, string>)
    requires IsForgetCertificate(ids, hashes)
    ensures Distinct(Digests(BuildLeaves(ids, hashes, audits)))
  {
    forall i, j | 0 <= i < j < |ids|
      ensures Digests(BuildLeaves(ids, hashes, audits))[i] != Digests(BuildLeaves(ids, hashes, audits))[j]
    {
      LeavesAgree(ids, hashes, audits, i, ids, hashes, audits, j);
    }
  }

  /** Two forgets get the same root exactly when they erased the same memories with
      the same contents and audit entries, in whatever order they were listed. */
  lemma ForgetRootBinds(
      leq: (Digest, Digest) -> bool,
      ids: seq<string>, hashes: map<string, string>, audits: map<string, string>,
      ids': seq<string>, hashes': map<string, string>, audits': map<string, string>)
    requires TotalOrder(leq)
    requires IsForgetCertificate(ids, hashes) && IsForgetCertificate(ids', hashes')
    ensures CertificateRoot(leq, BuildLeaves(ids, hashes, audits))
        == CertificateRoot(leq, BuildLeaves(ids', hashes', audits'))
      <==> SameClaims(ids, hashes, audits, ids', hashes', audits')
  {
    var xs, ys := BuildLeaves(ids, hashes, audits), BuildLeaves(ids', hashes', audits');
    ForgetLeavesDistinct(ids, hashes, audits);
    ForgetLeavesDistinct(ids', hashes', audits');
    RootIffSameLeaves(leq, xs, ys);
    if multiset(Digests(xs)) == multiset(Digests(ys)) {
      ClaimsIncluded(ids, hashes, audits, ids', hashes', audits');
      ClaimsIncluded(ids', hashes', audits', ids, hashes, audits);
    }
    if SameClaims(ids, hashes, audits, ids', hashes', audits') {
      DigestsIncluded(ids, hashes, audits, ids', hashes', audits');
      DigestsIncluded(ids', hashes', audits', ids, hashes, audits);
      SameElementsSameMultiset(Digests(xs), Digests(ys));
    }
  }

  lemma SameElementsSameMultiset(s: seq<Digest>, t: seq<Digest>)
    requires Distinct(s) && Distinct(t)
    requires forall d :: d in s <==> d in t
    ensures multiset(s) == multiset(t)
  {
    DistinctIffOnce(s);
    DistinctIffOnce(t);
    forall d
      ensures multiset(s)[d] == multiset(t)[d]
    {
      assert d in s <==> d in multiset(s);
      assert d in t <==> d in multiset(t);
    }
  }

  lemma ClaimsIncluded(
      ids: seq<string>, hashes: map<string, string>, audits: map<string, string>,
      ids': seq<string>, hashes': map<string, string>, audits': map<string, string>)
    requires IsForgetCertificate(ids, hashes) && IsForgetCertificate(ids', hashes')
    requires multiset(Digests(BuildLeaves(ids, hashes, audits)))
      == multiset(Digests(BuildLeaves(ids', hashes', audits')))
    ensures forall id | id in ids :: id in ids' && SameHash(hashes, hashes', id) && SameHash(audits, audits', id)
  {
    var xs, ys := Digests(BuildLeaves(ids, hashes, audits)), Digests(BuildLeaves(ids', hashes', audits'));
    forall id | id in ids
      ensures id in ids' && SameHash(hashes, hashes', id) && SameHash(audits, audits', id)
    {
      var i: nat :| i < |ids| && ids[i] == id;
      assert xs[i] in multiset(ys);
      var j: nat :| j < |ys| && ys[j] == xs[i];
      LeavesAgree(ids, hashes, audits, i, ids', hashes', audits', j);
    }
  }

  lemma DigestsIncluded(
      ids: seq<string>, hashes: map<string, string>, audits: map<string, string>,
      ids': seq<string>, hashes': map<string, string>, audits': map<string, string>)
    requires IsForgetCertificate(ids, hashes) && IsForgetCertificate(ids', hashes')
    requires SameClaims(ids, hashes, audits, ids', hashes', audits')
    ensures forall d | d in Digests(BuildLeaves(ids, hashes, audits)) ::
      d in Digests(BuildLeaves(ids', hashes', audits'))
  {
    var xs, ys := Digests(BuildLeaves(ids, hashes, audits)), Digests(BuildLeaves(ids', hashes', audits'));
    forall d | d in xs
      ensures d in ys
    {
      var i: nat :| i < |xs| && xs[i] == d;
      assert ids[i] in ids';
      var j: nat :| j < |ids'| && ids'[j] == ids[i];
      LeavesAgree(ids, hashes, audits, i, ids', hashes', audits', j);
      assert ys[j] == d;
    }
  }
}
