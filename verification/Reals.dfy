/** Sums of exact reals, which stand for the source's floating-point sums. */
module Reals {
  import opened Arith
  import opened Sorting

  function Sum(s: seq<real>): real {
    if s == [] then 0.0 else Sum(s[..|s| - 1]) + s[|s| - 1]
  }

  function Mean(s: seq<real>): real {
    if s == [] then 0.0 else Sum(s) / |s| as real
  }

  /** `root` is the square root of `x`. */
  predicate IsRoot(root: real, x: real) {
    root >= 0.0 && root * root == x
  }

  lemma SumStep(s: seq<real>, k: nat)
    requires k < |s|
    ensures Sum(s[..k + 1]) == Sum(s[..k]) + s[k]
  {
    assert s[..k + 1][..k] == s[..k];
  }

  function SumBy<T>(s: seq<T>, f: T -> real): real {
    if s == [] then 0.0 else SumBy(s[..|s| - 1], f) + f(s[|s| - 1])
  }

  lemma {:induction false} SumByConcat<T>(a: seq<T>, b: seq<T>, f: T -> real)
    ensures SumBy(a + b, f) == SumBy(a, f) + SumBy(b, f)
  {
    if b == [] {
      assert a + b == a;
    } else {
      assert (a + b)[..|a + b| - 1] == a + b[..|b| - 1];
      SumByConcat(a, b[..|b| - 1], f);
    }
  }

  lemma SumByInsert<T>(a: seq<T>, x: T, b: seq<T>, f: T -> real)
    ensures SumBy(a + ([x] + b), f) == SumBy(a + b, f) + f(x)
  {
    assert SumBy([x], f) == f(x) by { assert [x][..0] == []; }
    SumByConcat(a, b, f);
    SumByConcat(a, [x] + b, f);
    SumByConcat([x], b, f);
  }

  /** A sum does not see the order of its terms. */
  lemma {:induction false} SumByPermutation<T>(a: seq<T>, b: seq<T>, f: T -> real)
    requires multiset(a) == multiset(b)
    ensures SumBy(a, f) == SumBy(b, f)
    decreases |a|
  {
    SameLength(a, b);
    if a != [] {
      var x := a[|a| - 1];
      assert x in multiset(b);
      var k :| 0 <= k < |b| && b[k] == x;
      RemoveLast(a);
      RemoveOne(b, k);
      SumByPermutation(a[..|a| - 1], b[..k] + b[k + 1..], f);
      SumByInsert(b[..k], x, b[k + 1..], f);
      assert b == b[..k] + ([x] + b[k + 1..]);
    }
  }
}
