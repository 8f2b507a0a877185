/** Byte strings.  Everything hashed by the engine is ASCII, so a byte is a char. */
module Text {

  /** The 36 characters of `str(uuid)`: hexadecimal digits and hyphens. */
  predicate IsUuidText(s: string) {
    && |s| == 36
    && forall i | 0 <= i < |s| :: s[i] == '-' || '0' <= s[i] <= '9' || 'a' <= s[i] <= 'f'
  }

  const NIL_UUID: string := "00000000-0000-0000-0000-000000000000"

  type UuidText = s: string | IsUuidText(s) witness NIL_UUID

  predicate Lacks(s: string, c: char) {
    forall i | 0 <= i < |s| :: s[i] != c
  }

  lemma Associate(a: string, b: string, c: string)
    ensures (a + b) + c == a + (b + c)
  {
  }

  lemma CancelPrefix(p: string, x: string, y: string)
    requires p + x == p + y
    ensures x == y
  {
    assert x == (p + x)[|p|..] && y == (p + y)[|p|..];
  }

  /** Position of the first `c`, or the length. */
  function Find(s: string, c: char): (i: nat)
    ensures i <= |s|
  {
    if s == [] || s[0] == c then 0 else 1 + Find(s[1..], c)
  }

  lemma {:induction false} FindAfterField(a: string, c: char, x: string)
    requires Lacks(a, c)
    ensures Find(a + [c] + x, c) == |a|
    decreases |a|
  {
    if a != [] {
      FindAfterField(a[1..], c, x);
      assert (a + [c] + x)[1..] == a[1..] + [c] + x;
    }
  }

  /** A field without the separator ends where the separator is. */
  lemma SplitAtSeparator(a: string, x: string, b: string, y: string, c: char)
    requires Lacks(a, c) && Lacks(b, c)
    requires a + [c] + x == b + [c] + y
    ensures a == b && x == y
  {
    FindAfterField(a, c, x);
    FindAfterField(b, c, y);
    var l, r := a + [c] + x, b + [c] + y;
    assert a == l[..|a|] && b == r[..|b|];
    assert x == l[|a| + 1..] && y == r[|b| + 1..];
  }
}
