/** What several parts of the model count or compare with. */
module Basics {

  function Min(a: nat, b: nat): nat {
    if a <= b then a else b
  }

  ghost predicate Distinct<T>(s: seq<T>) {
    forall i, j | 0 <= i < j < |s| :: s[i] != s[j]
  }
}
