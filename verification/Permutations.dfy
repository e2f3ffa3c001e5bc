/** Counting arguments about permutations of 0..n-1. */
module Permutations {
  import opened Rotations

  ghost function UpTo(n: nat): (r: set<int>)
    ensures |r| == n
    ensures forall x :: x in r <==> 0 <= x < n
  {
    if n == 0 then {} else UpTo(n - 1) + {n - 1}
  }

  lemma SubsetSize<T>(a: set<T>, b: set<T>)
    requires a <= b
    ensures |a| <= |b|
  {
    assert b == a + (b - a);
  }

  lemma {:induction false} DistinctCount(s: seq<int>, k: nat)
    requires k <= |s| && forall p, q :: 0 <= p < q < |s| ==> s[p] != s[q]
    ensures |set i | 0 <= i < k :: s[i]| == k
  {
    if k > 0 {
      DistinctCount(s, k - 1);
      var before := set i | 0 <= i < k - 1 :: s[i];
      assert (set i | 0 <= i < k :: s[i]) == before + {s[k - 1]};
      assert s[k - 1] !in before;
    }
  }

  /** A permutation hits every value. */
  lemma PermSurjective(s: seq<int>, n: nat, x: int) returns (p: int)
    requires IsPerm(s, n) && 0 <= x < n
    ensures 0 <= p < n && s[p] == x
  {
    if x !in s {
      var values := set i | 0 <= i < n :: s[i];
      DistinctCount(s, n);
      SubsetSize(values, UpTo(n) - {x});
      assert false;
    }
    p :| 0 <= p < n && s[p] == x;
  }
}
