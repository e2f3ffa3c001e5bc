/** Rearranging one segment of a sequence, and what survives it. */
module Segments {
  import opened Rotations

  /** a is b with only the elements of [lo, hi) rearranged. */
  ghost predicate SamePart(a: seq<int>, b: seq<int>, lo: int, hi: int) {
    && |a| == |b|
    && 0 <= lo <= hi <= |a|
    && (forall p :: 0 <= p < lo ==> a[p] == b[p])
    && (forall p :: hi <= p < |a| ==> a[p] == b[p])
    && multiset(a[lo..hi]) == multiset(b[lo..hi])
  }

  function Swapped(s: seq<int>, i: int, j: int): seq<int>
    requires 0 <= i < |s| && 0 <= j < |s|
  {
    s[i := s[j]][j := s[i]]
  }

  lemma SamePartSelf(s: seq<int>, lo: int, hi: int)
    requires 0 <= lo <= hi <= |s|
    ensures SamePart(s, s, lo, hi)
  {
  }

  lemma SamePartOutside(a: seq<int>, b: seq<int>, lo: int, hi: int)
    requires SamePart(a, b, lo, hi)
    ensures |a| == |b| && 0 <= lo <= hi <= |a|
    ensures forall p :: 0 <= p < lo || hi <= p < |a| ==> a[p] == b[p]
  {
  }

  lemma SamePartTrans(a: seq<int>, b: seq<int>, c: seq<int>, lo: int, hi: int)
    requires SamePart(a, b, lo, hi) && SamePart(b, c, lo, hi)
    ensures SamePart(a, c, lo, hi)
  {
  }

  lemma SwapPart(s: seq<int>, i: int, j: int, lo: int, hi: int)
    requires 0 <= lo <= i < hi <= |s| && lo <= j < hi
    ensures SamePart(Swapped(s, i, j), s, lo, hi)
  {
    var t := Swapped(s, i, j);
    assert t[lo..hi] == s[lo..hi][i - lo := s[j]][j - lo := s[i]];
  }

  lemma SamePartWiden(a: seq<int>, b: seq<int>, lo: int, hi: int, lo': int, hi': int)
    requires SamePart(a, b, lo, hi) && 0 <= lo' <= lo && hi <= hi' <= |a|
    ensures SamePart(a, b, lo', hi')
  {
    assert a[lo'..hi'] == a[lo'..lo] + a[lo..hi] + a[hi..hi'];
    assert b[lo'..hi'] == b[lo'..lo] + b[lo..hi] + b[hi..hi'];
    assert a[lo'..lo] == b[lo'..lo] && a[hi..hi'] == b[hi..hi'];
  }

  /** An element of the rearranged segment comes from the segment. */
  lemma SamePartOrigin(a: seq<int>, b: seq<int>, lo: int, hi: int, p: int) returns (q: int)
    requires SamePart(a, b, lo, hi) && lo <= p < hi
    ensures lo <= q < hi && a[p] == b[q]
  {
    assert a[p] == a[lo..hi][p - lo];
    assert a[p] in multiset(a[lo..hi]);
    assert a[p] in b[lo..hi];
    var k :| 0 <= k < hi - lo && b[lo..hi][k] == a[p];
    q := lo + k;
  }

  lemma TwiceInMultiset(s: seq<int>, p: int, q: int)
    requires 0 <= p < q < |s| && s[p] == s[q]
    ensures multiset(s)[s[p]] >= 2
  {
    assert s == s[..q] + s[q..];
    assert s[p] == s[..q][p] && s[q] == s[q..][0];
  }

  lemma {:induction false} OnceInMultiset(s: seq<int>, x: int)
    requires forall p, q :: 0 <= p < q < |s| ==> s[p] != s[q]
    ensures multiset(s)[x] <= 1
  {
    if s != [] {
      var k := |s| - 1;
      assert s == s[..k] + [s[k]];
      OnceInMultiset(s[..k], x);
      assert x in multiset(s[..k]) <==> x in s[..k];
    }
  }

  /** No element of the segment comes twice. */
  ghost predicate Apart(s: seq<int>, lo: int, hi: int) {
    0 <= lo <= hi <= |s| && forall p, q :: lo <= p < q < hi ==> s[p] != s[q]
  }

  lemma ApartPart(a: seq<int>, b: seq<int>, lo: int, hi: int)
    requires SamePart(a, b, lo, hi) && Apart(b, lo, hi)
    ensures Apart(a, lo, hi)
  {
    forall p, q | lo <= p < q < hi ensures a[p] != a[q] {
      if a[p] == a[q] {
        TwiceInMultiset(a[lo..hi], p - lo, q - lo);
        OnceInMultiset(b[lo..hi], a[p]);
      }
    }
  }

  /** Rearranging a part of a permutation leaves a permutation. */
  lemma PermPart(a: seq<int>, b: seq<int>, lo: int, hi: int, n: nat)
    requires SamePart(a, b, lo, hi) && IsPerm(b, n)
    ensures IsPerm(a, n)
  {
    SamePartWiden(a, b, lo, hi, 0, |a|);
    assert a[0..|a|] == a && b[0..|b|] == b;
    forall p | 0 <= p < n ensures 0 <= a[p] < n {
      var q := SamePartOrigin(a, b, 0, |a|, p);
    }
    forall p, q | 0 <= p < q < n ensures a[p] != a[q] {
      if a[p] == a[q] {
        TwiceInMultiset(a, p, q);
        OnceInMultiset(b, a[p]);
      }
    }
  }

  /** Every entry of f is an index of key. */
  ghost predicate Indexes(f: seq<int>, lo: int, hi: int, n: int)
  {
    0 <= lo <= hi <= |f| && forall p :: lo <= p < hi ==> 0 <= f[p] < n
  }

  /** f[lo..hi] lists indices of key in nondecreasing order of key. */
  ghost predicate KeySorted(key: seq<int>, f: seq<int>, lo: int, hi: int) {
    && Indexes(f, lo, hi, |key|)
    && (forall p, q :: lo <= p < q < hi ==> key[f[p]] <= key[f[q]])
  }

  lemma IndexesPart(a: seq<int>, b: seq<int>, lo: int, hi: int, lo': int, hi': int, n: int)
    requires SamePart(a, b, lo, hi) && lo' <= lo <= hi <= hi' && Indexes(b, lo', hi', n)
    ensures Indexes(a, lo', hi', n)
  {
    forall p | lo' <= p < hi' ensures 0 <= a[p] < n {
      if lo <= p < hi { var q := SamePartOrigin(a, b, lo, hi, p); }
    }
  }
}
