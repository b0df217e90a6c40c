/** The few definitions every other module shares. */
module Basics {

  datatype Option<+T> = None | Some(value: T)

  function Min(a: int, b: int): int { if a < b then a else b }

  function Max(a: int, b: int): int { if a > b then a else b }

  /** No element occurs twice. */
  predicate Distinct<T(==)>(s: seq<T>) {
    s != [] ==> s[|s| - 1] !in s[..|s| - 1] && Distinct(s[..|s| - 1])
  }

  lemma {:induction false} DistinctElementsDiffer<T>(s: seq<T>)
    requires Distinct(s)
    ensures forall i, j | 0 <= i < j < |s| :: s[i] != s[j]
  {
    if s != [] {
      var n := |s| - 1;
      DistinctElementsDiffer(s[..n]);
      forall i, j | 0 <= i < j < |s| ensures s[i] != s[j] {
        assert s[..n][i] == s[i];
        if j < n { assert s[..n][j] == s[j]; }
      }
    }
  }

  lemma {:induction false} DistinctConcat<T>(a: seq<T>, b: seq<T>)
    requires Distinct(a) && Distinct(b) && forall q | q in b :: q !in a
    ensures Distinct(a + b)
  {
    if b == [] {
      assert a + b == a;
    } else {
      assert (a + b)[..|a + b| - 1] == a + b[..|b| - 1];
      DistinctConcat(a, b[..|b| - 1]);
      assert b[|b| - 1] in b;
    }
  }

  lemma {:induction false} DistinctPrefix<T>(a: seq<T>, n: nat)
    requires Distinct(a) && n <= |a|
    ensures Distinct(a[..n])
  {
    if n < |a| {
      DistinctPrefix(a[..|a| - 1], n);
      assert a[..|a| - 1][..n] == a[..n];
    } else {
      assert a[..n] == a;
    }
  }
}
