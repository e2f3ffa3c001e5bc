/** Exchanges and three-way splits inside one segment, and the bookkeeping of
    segments that still wait to be sorted. */
module Partitioning {
  import opened Rotations
  import opened Segments

  /** The slot that holds the element being inserted moves up by one gap. */
  lemma SlotMoves(f: seq<int>, f0: seq<int>, slot: int, j: int, tmp: int, lo: int, hi: int)
    requires 0 <= lo <= slot < hi <= |f| && lo <= j < hi && slot != j
    requires SamePart(f[slot := tmp], f0, lo, hi)
    ensures SamePart(f[slot := f[j]][j := tmp], f0, lo, hi)
  {
    var v := f[slot := tmp];
    assert f[slot := f[j]][j := tmp] == Swapped(v, slot, j);
    SwapPart(v, slot, j, lo, hi);
    SamePartTrans(Swapped(v, slot, j), v, f0, lo, hi);
  }

  lemma KeySortedShort(key: seq<int>, f: seq<int>, lo: int, hi: int)
    requires Indexes(f, lo, hi, |key|) && hi <= lo + 1
    ensures KeySorted(key, f, lo, hi)
  {
  }

  lemma IndexesWiden(f: seq<int>, lo: int, hi: int, lo': int, hi': int, n: int)
    requires 0 <= lo' <= lo <= hi <= hi' <= |f| && Indexes(f, lo', hi', n)
    ensures Indexes(f, lo, hi, n)
  {
  }

  /** A rearrangement of [i, hi) after one of [lo, hi) is one of [lo, hi). */
  lemma Composed(f2: seq<int>, f1: seq<int>, f0: seq<int>, i: int, lo: int, hi: int, n: int)
    requires lo <= i && SamePart(f2, f1, i, hi) && SamePart(f1, f0, lo, hi) && Indexes(f1, lo, hi, n)
    ensures SamePart(f2, f0, lo, hi) && Indexes(f2, lo, hi, n)
  {
    SamePartWiden(f2, f1, i, hi, lo, hi);
    SamePartTrans(f2, f1, f0, lo, hi);
    IndexesPart(f2, f1, i, hi, lo, hi, n);
  }

  /** fmap[p1 + k] and fmap[p2 + k] change places for 0 <= k < n. */
  method VectorSwap(fmap: array<int>, p1: int, p2: int, n: int, ghost lo: int, ghost hi: int)
    requires 0 <= n && 0 <= lo <= p1 && p1 + n <= p2 && p2 + n <= hi <= fmap.Length
    modifies fmap
    ensures SamePart(fmap[..], old(fmap[..]), lo, hi)
    ensures BlocksSwapped(fmap[..], old(fmap[..]), p1, p2, n)
  {
    hide SamePart;
    ghost var f0 := fmap[..];
    SamePartSelf(f0, lo, hi);
    var yyp1, yyp2, yyn := p1, p2, n;
    while yyn > 0
      invariant 0 <= yyn <= n && yyp1 == p1 + n - yyn && yyp2 == p2 + n - yyn
      invariant SamePart(fmap[..], f0, lo, hi)
      invariant forall k :: p1 <= k < yyp1 ==> fmap[k] == f0[k - p1 + p2]
      invariant forall k :: p2 <= k < yyp2 ==> fmap[k] == f0[k - p2 + p1]
      invariant forall k :: 0 <= k < fmap.Length && !(p1 <= k < yyp1) && !(p2 <= k < yyp2) ==> fmap[k] == f0[k]
    {
      SwapIn(fmap, yyp1, yyp2, f0, lo, hi);
      yyp1, yyp2, yyn := yyp1 + 1, yyp2 + 1, yyn - 1;
    }
  }

  /** One exchange inside the segment. */
  method SwapIn(fmap: array<int>, i: int, j: int, ghost f0: seq<int>, ghost lo: int, ghost hi: int)
    requires 0 <= lo <= i < hi <= fmap.Length && lo <= j < hi
    requires SamePart(fmap[..], f0, lo, hi)
    modifies fmap
    ensures SamePart(fmap[..], f0, lo, hi)
    ensures fmap[..] == Swapped(old(fmap[..]), i, j)
  {
    hide SamePart;
    ghost var f1 := fmap[..];
    fmap[i], fmap[j] := fmap[j], fmap[i];
    assert fmap[..] == Swapped(f1, i, j);
    SwapPart(f1, i, j, lo, hi);
    SamePartTrans(fmap[..], f1, f0, lo, hi);
  }

  /** The partition's working zones: equal, below, untouched, above, equal. */
  ghost predicate Zones(key: seq<int>, f: seq<int>, lo: int, ltLo: int, unLo: int, unHi: int, gtHi: int, hi: int,
      med: int)
  {
    && 0 <= lo <= ltLo <= unLo <= unHi + 1 <= gtHi + 1 <= hi + 1 <= |f|
    && (forall p :: lo <= p <= hi ==> 0 <= f[p] < |key|)
    && (forall p :: lo <= p < ltLo ==> key[f[p]] == med)
    && (forall p :: ltLo <= p < unLo ==> key[f[p]] < med)
    && (forall p :: unHi < p <= gtHi ==> key[f[p]] > med)
    && (forall p :: gtHi < p <= hi ==> key[f[p]] == med)
  }

  lemma ZonesBounds(key: seq<int>, f: seq<int>, lo: int, ltLo: int, unLo: int, unHi: int, gtHi: int, hi: int, med: int)
    requires Zones(key, f, lo, ltLo, unLo, unHi, gtHi, hi, med)
    ensures 0 <= lo <= ltLo <= unLo <= unHi + 1 <= gtHi + 1 <= hi + 1 <= |f|
    ensures gtHi < ltLo && unHi == unLo - 1 ==> Split(key, f, lo, lo - 1, hi + 1, hi, med)
  {
  }

  /** Keys below med up to n, equal to it between n and m, above it from m on. */
  ghost predicate Split(key: seq<int>, f: seq<int>, lo: int, n: int, m: int, hi: int, med: int) {
    && 0 <= lo <= n + 1 <= m <= hi + 1 <= |f|
    && (forall p :: lo <= p <= hi ==> 0 <= f[p] < |key|)
    && (forall p :: lo <= p <= n ==> key[f[p]] < med)
    && (forall p :: n < p < m ==> key[f[p]] == med)
    && (forall p :: m <= p <= hi ==> key[f[p]] > med)
  }

  /** g is f with [p1, p1 + n) and [p2, p2 + n) exchanged. */
  ghost predicate BlocksSwapped(g: seq<int>, f: seq<int>, p1: int, p2: int, n: int) {
    && |g| == |f| && 0 <= n && 0 <= p1 && p1 + n <= p2 && p2 + n <= |f|
    && (forall k :: p1 <= k < p1 + n ==> g[k] == f[k - p1 + p2])
    && (forall k :: p2 <= k < p2 + n ==> g[k] == f[k - p2 + p1])
    && (forall k :: 0 <= k < |f| && !(p1 <= k < p1 + n) && !(p2 <= k < p2 + n) ==> g[k] == f[k])
  }

  /** Keys equal to med in [a, b), on one side of it (sign s) in [b, c): exchanging
      the ends puts the equal ones last. */
  lemma EqualsLast(key: seq<int>, f: seq<int>, g: seq<int>, a: int, b: int, c: int, med: int, n: int)
    requires 0 <= a <= b <= c <= |f|
    requires n == (if b - a < c - b then b - a else c - b)
    requires BlocksSwapped(g, f, a, c - n, n)
    requires forall p :: a <= p < c ==> 0 <= f[p] < |key|
    requires forall p :: a <= p < b ==> key[f[p]] == med
    requires forall p :: b <= p < c ==> key[f[p]] < med
    ensures forall p :: a <= p < c ==> 0 <= g[p] < |key|
    ensures forall p :: a <= p < a + c - b ==> key[g[p]] < med
    ensures forall p :: a + c - b <= p < c ==> key[g[p]] == med
  {
    forall p | a <= p < c
      ensures 0 <= g[p] < |key|
      ensures p < a + c - b ==> key[g[p]] < med
      ensures a + c - b <= p ==> key[g[p]] == med
    {
      if p < a + n {
        assert g[p] == f[p - a + (c - n)];
      } else if c - n <= p {
        assert g[p] == f[p - (c - n) + a];
      } else {
        assert g[p] == f[p];
      }
    }
  }

  /** The mirror image: above med in [a, b), equal in [b, c). */
  lemma EqualsFirst(key: seq<int>, f: seq<int>, g: seq<int>, a: int, b: int, c: int, med: int, m: int)
    requires 0 <= a <= b <= c <= |f|
    requires m == (if c - b < b - a then c - b else b - a)
    requires BlocksSwapped(g, f, a, c - m, m)
    requires forall p :: a <= p < c ==> 0 <= f[p] < |key|
    requires forall p :: a <= p < b ==> key[f[p]] > med
    requires forall p :: b <= p < c ==> key[f[p]] == med
    ensures forall p :: a <= p < c ==> 0 <= g[p] < |key|
    ensures forall p :: a <= p < a + c - b ==> key[g[p]] == med
    ensures forall p :: a + c - b <= p < c ==> key[g[p]] > med
  {
    forall p | a <= p < c
      ensures 0 <= g[p] < |key|
      ensures p < a + c - b ==> key[g[p]] == med
      ensures a + c - b <= p ==> key[g[p]] > med
    {
      if p < a + m {
        assert g[p] == f[p - a + (c - m)];
      } else if c - m <= p {
        assert g[p] == f[p - (c - m) + a];
      } else {
        assert g[p] == f[p];
      }
    }
  }

  /** Moving the equal ends inward turns the five zones into three. */
  lemma Gathered(key: seq<int>, f1: seq<int>, f2: seq<int>, f3: seq<int>, lo: int, ltLo: int, unLo: int, gtHi: int,
      hi: int, med: int, n: int, m: int)
    requires Zones(key, f1, lo, ltLo, unLo, unLo - 1, gtHi, hi, med)
    requires n == (if ltLo - lo < unLo - ltLo then ltLo - lo else unLo - ltLo)
    requires m == (if hi - gtHi < gtHi - unLo + 1 then hi - gtHi else gtHi - unLo + 1)
    requires BlocksSwapped(f2, f1, lo, unLo - n, n) && BlocksSwapped(f3, f2, unLo, hi - m + 1, m)
    ensures Split(key, f3, lo, lo + unLo - ltLo - 1, hi - (gtHi - unLo + 1) + 1, hi, med)
  {
    hide BlocksSwapped;
    BlocksSwappedElsewhere(f2, f1, lo, unLo - n, n);
    EqualsLast(key, f1, f2, lo, ltLo, unLo, med, n);
    GatheredHigh(key, f2, f3, lo, lo + unLo - ltLo - 1, unLo, gtHi, hi, med, m);
  }

  lemma GatheredHigh(key: seq<int>, f2: seq<int>, f3: seq<int>, lo: int, n': int, unLo: int, gtHi: int, hi: int,
      med: int, m: int)
    requires 0 <= lo <= n' + 1 <= unLo <= gtHi + 1 <= hi + 1 <= |f2|
    requires forall p :: lo <= p <= hi ==> 0 <= f2[p] < |key|
    requires forall p :: lo <= p <= n' ==> key[f2[p]] < med
    requires forall p :: n' < p < unLo ==> key[f2[p]] == med
    requires forall p :: unLo <= p <= gtHi ==> key[f2[p]] > med
    requires forall p :: gtHi < p <= hi ==> key[f2[p]] == med
    requires m == (if hi - gtHi < gtHi - unLo + 1 then hi - gtHi else gtHi - unLo + 1)
    requires BlocksSwapped(f3, f2, unLo, hi - m + 1, m)
    ensures Split(key, f3, lo, n', hi - (gtHi - unLo + 1) + 1, hi, med)
  {
    hide BlocksSwapped;
    BlocksSwappedElsewhere(f3, f2, unLo, hi - m + 1, m);
    EqualsFirst(key, f2, f3, unLo, gtHi + 1, hi + 1, med, m);
  }

  lemma BlocksSwappedElsewhere(g: seq<int>, f: seq<int>, p1: int, p2: int, n: int)
    requires BlocksSwapped(g, f, p1, p2, n)
    ensures |g| == |f| && forall k :: 0 <= k < p1 || p2 + n <= k < |f| ==> g[k] == f[k]
  {
  }

  /** Out-of-order pairs lie in one and the same pending segment. */
  ghost predicate Ordered(key: seq<int>, f: seq<int>, owner: seq<int>, lo: int, hi: int) {
    && 0 <= lo <= hi + 1 <= |f| == |owner|
    && (forall p :: lo <= p <= hi ==> 0 <= f[p] < |key|)
    && (forall p, q :: lo <= p < q <= hi ==> (owner[p] == owner[q] && 0 <= owner[p]) || key[f[p]] <= key[f[q]])
  }

  /** owner gives, for each position, the stack entry whose segment holds it, or -1. */
  ghost predicate Owned(owner: seq<int>, los: seq<int>, his: seq<int>, sp: int, lo: int, hi: int) {
    && 0 <= sp <= |los| == |his|
    && 0 <= lo <= hi + 1 <= |owner|
    && (forall k :: 0 <= k < sp ==> lo <= los[k] <= his[k] + 1 <= hi + 1)
    && (forall k, p :: 0 <= k < sp && los[k] <= p <= his[k] ==> owner[p] == k)
    && (forall p :: lo <= p <= hi && owner[p] >= 0 ==> owner[p] < sp && los[owner[p]] <= p <= his[owner[p]])
  }

  /** Rearranging one pending segment keeps the order with everything outside it. */
  lemma Resettled(key: seq<int>, f0: seq<int>, f1: seq<int>, owner0: seq<int>, owner1: seq<int>, k: int, a: int, b: int,
      lo: int, hi: int)
    requires Ordered(key, f0, owner0, lo, hi)
    requires SamePart(f1, f0, a, b + 1) && lo <= a <= b + 1 <= hi + 1 && |owner1| == |owner0|
    requires forall p :: a <= p <= b ==> owner0[p] == k
    requires forall p :: lo <= p <= hi && !(a <= p <= b) ==> owner0[p] != k && owner1[p] == owner0[p]
    requires Ordered(key, f1, owner1, a, b)
    ensures Ordered(key, f1, owner1, lo, hi)
  {
    hide SamePart;
    SamePartOutside(f1, f0, a, b + 1);
    forall p, q | lo <= p < q <= hi ensures (owner1[p] == owner1[q] && 0 <= owner1[p]) || key[f1[p]] <= key[f1[q]] {
      if a <= p <= b && !(a <= q <= b) {
        var p0 := SamePartOrigin(f1, f0, a, b + 1, p);
      } else if !(a <= p <= b) && a <= q <= b {
        var q0 := SamePartOrigin(f1, f0, a, b + 1, q);
      }
    }
  }

  /** A sorted segment is finished: nobody owns it. */
  function Released(owner: seq<int>, a: int, b: int): (r: seq<int>)
    ensures |r| == |owner|
  {
    seq(|owner|, p requires 0 <= p < |owner| => if a <= p <= b then -1 else owner[p])
  }

  lemma ReleasedOrdered(key: seq<int>, f0: seq<int>, f1: seq<int>, owner: seq<int>, los: seq<int>, his: seq<int>,
      k: int, lo: int, hi: int)
    requires Ordered(key, f0, owner, lo, hi) && Owned(owner, los, his, k + 1, lo, hi) && 0 <= k
    requires SamePart(f1, f0, los[k], his[k] + 1)
    requires Indexes(f1, los[k], his[k] + 1, |key|) && KeySorted(key, f1, los[k], his[k] + 1)
    ensures Ordered(key, f1, Released(owner, los[k], his[k]), lo, hi)
    ensures Owned(Released(owner, los[k], his[k]), los, his, k, lo, hi)
  {
    Resettled(key, f0, f1, owner, Released(owner, los[k], his[k]), k, los[k], his[k], lo, hi);
  }

  lemma Rearranged(f2: seq<int>, f1: seq<int>, f0: seq<int>, a: int, b: int, lo: int, hi: int, n: int)
    requires lo <= a <= b + 1 <= hi + 1 && SamePart(f2, f1, a, b + 1) && SamePart(f1, f0, lo, hi + 1)
             && Indexes(f1, lo, hi + 1, n)
    ensures SamePart(f2, f0, lo, hi + 1) && Indexes(f2, lo, hi + 1, n)
  {
    SamePartWiden(f2, f1, a, b + 1, lo, hi + 1);
    SamePartTrans(f2, f1, f0, lo, hi + 1);
    IndexesPart(f2, f1, a, b + 1, lo, hi + 1, n);
  }

  lemma SplitBounds(key: seq<int>, f: seq<int>, lo: int, n: int, m: int, hi: int, med: int)
    requires Split(key, f, lo, n, m, hi, med)
    ensures 0 <= lo <= n + 1 <= m <= hi + 1 <= |f|
  {
  }

  lemma IndexAt(f: seq<int>, lo: int, hi: int, n: int, p: int)
    requires Indexes(f, lo, hi, n) && lo <= p < hi
    ensures 0 <= p < |f| && 0 <= f[p] < n
  {
  }
}
