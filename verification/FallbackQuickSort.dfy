/** The key sort inside the fallback block sorter: insertion sort for short
    segments and a three-way quicksort with an explicit, bounded stack. */
module FallbackQuickSort {
  import opened Rotations
  import opened Segments
  import opened Partitioning
  import opened Bits

  const SMALL_THRESH := 10

  const STACK_SIZE := 100

  /** After the shift, f is f0 with f0[i] moved up to position s. */
  lemma InsertedSorted(key: seq<int>, f0: seq<int>, f: seq<int>, i: int, s: int, hi: int)
    requires 0 <= i <= s <= hi < |f| == |f0|
    requires Indexes(f0, i, hi + 1, |key|) && Indexes(f, i, hi + 1, |key|)
    requires KeySorted(key, f0, i + 1, hi + 1)
    requires f[s] == f0[i]
    requires forall p :: s < p <= hi ==> f[p] == f0[p]
    requires forall p :: i <= p < s ==> f[p] == f0[p + 1] && key[f[p]] < key[f0[i]]
    requires s < hi ==> key[f0[i]] <= key[f0[s + 1]]
    ensures KeySorted(key, f, i, hi + 1)
  {
    forall p, q | i <= p < q < hi + 1 ensures key[f[p]] <= key[f[q]] {
      if s < q { assert key[f0[s + 1]] <= key[f0[q]]; }
    }
  }

  /** Inserts fmap[i] into the run fmap[i + gap], fmap[i + 2 * gap], ... <= hi. */
  method InsertDown(fmap: array<int>, eclass: array<int>, i: int, hi: int, gap: int)
    requires fmap != eclass
    requires 0 <= i <= hi < fmap.Length && gap >= 1
    requires Indexes(fmap[..], i, hi + 1, eclass.Length)
    modifies fmap
    ensures SamePart(fmap[..], old(fmap[..]), i, hi + 1)
    ensures Indexes(fmap[..], i, hi + 1, eclass.Length)
    ensures gap == 1 && KeySorted(eclass[..], old(fmap[..]), i + 1, hi + 1) ==>
              KeySorted(eclass[..], fmap[..], i, hi + 1)
  {
    hide SamePart, KeySorted;
    var tmp := fmap[i];
    var ecTmp := eclass[tmp];
    ghost var f0 := fmap[..];
    ghost var key := eclass[..];
    var j := i + gap;
    assert fmap[..][i := tmp] == f0;
    SamePartSelf(f0, i, hi + 1);
    while j <= hi && ecTmp > eclass[fmap[j]]
      invariant i + gap <= j
      invariant j - gap <= hi
      invariant SamePart(fmap[..][j - gap := tmp], f0, i, hi + 1)
      invariant Indexes(fmap[..], i, hi + 1, eclass.Length)
      invariant forall p :: j <= p <= hi ==> fmap[p] == f0[p]
      invariant gap == 1 ==> forall p :: i <= p < j - 1 ==> fmap[p] == f0[p + 1] && key[fmap[p]] < ecTmp
      decreases hi - j + gap
    {
      SlotMoves(fmap[..], f0, j - gap, j, tmp, i, hi + 1);
      fmap[j - gap] := fmap[j];
      j := j + gap;
    }
    fmap[j - gap] := tmp;
    assert fmap[..] == fmap[..][j - gap := tmp];
    if gap == 1 && KeySorted(key, f0, i + 1, hi + 1) {
      InsertedSorted(key, f0, fmap[..], i, j - 1, hi);
    }
  }

  method FallbackSimpleSort(fmap: array<int>, eclass: array<int>, lo: int, hi: int)
    requires fmap != eclass
    requires 0 <= lo <= hi + 1 <= fmap.Length
    requires Indexes(fmap[..], lo, hi + 1, eclass.Length)
    modifies fmap
    ensures SamePart(fmap[..], old(fmap[..]), lo, hi + 1)
    ensures Indexes(fmap[..], lo, hi + 1, eclass.Length)
    ensures KeySorted(eclass[..], fmap[..], lo, hi + 1)
  {
    hide SamePart, KeySorted, Indexes;
    ghost var f0 := fmap[..];
    SamePartSelf(f0, lo, hi + 1);
    if hi <= lo { KeySortedShort(eclass[..], f0, lo, hi + 1); }
    if lo == hi { return; }
    var i;
    if hi - lo > 3 {
      i := hi - 4;
      while i >= lo
        invariant lo - 1 <= i <= hi - 4
        invariant SamePart(fmap[..], f0, lo, hi + 1)
        invariant Indexes(fmap[..], lo, hi + 1, eclass.Length)
      {
        ghost var f1 := fmap[..];
        IndexesWiden(f1, i, hi + 1, lo, hi + 1, eclass.Length);
        InsertDown(fmap, eclass, i, hi, 4);
        Composed(fmap[..], f1, f0, i, lo, hi + 1, eclass.Length);
        i := i - 1;
      }
    }
    i := hi - 1;
    if lo <= hi {
      IndexesWiden(fmap[..], hi, hi + 1, lo, hi + 1, eclass.Length);
      KeySortedShort(eclass[..], fmap[..], hi, hi + 1);
    }
    while i >= lo
      invariant if lo <= hi then lo - 1 <= i <= hi - 1 else i < lo && fmap[..] == f0
      invariant SamePart(fmap[..], f0, lo, hi + 1)
      invariant Indexes(fmap[..], lo, hi + 1, eclass.Length)
      invariant lo <= hi ==> KeySorted(eclass[..], fmap[..], i + 1, hi + 1)
      decreases i - lo + 1
    {
      ghost var f1 := fmap[..];
      IndexesWiden(f1, i, hi + 1, lo, hi + 1, eclass.Length);
      InsertDown(fmap, eclass, i, hi, 1);
      Composed(fmap[..], f1, f0, i, lo, hi + 1, eclass.Length);
      i := i - 1;
    }
  }

  /** Moves unLo up past keys that are not above med. */
  method ScanUp(fmap: array<int>, eclass: array<int>, lo: int, ltLo0: int, unLo0: int, unHi: int, ghost gtHi: int,
      ghost hi: int, med: int,
                ghost f0: seq<int>)
    returns (ltLo: int, unLo: int)
    requires fmap != eclass
    requires Zones(eclass[..], fmap[..], lo, ltLo0, unLo0, unHi, gtHi, hi, med)
    requires SamePart(fmap[..], f0, lo, hi + 1)
    modifies fmap
    ensures Zones(eclass[..], fmap[..], lo, ltLo, unLo, unHi, gtHi, hi, med)
    ensures SamePart(fmap[..], f0, lo, hi + 1)
    ensures unLo0 <= unLo && (unLo <= unHi ==> eclass[fmap[unLo]] > med)
    ensures ltLo == unLo ==> ltLo0 == unLo0
  {
    hide SamePart;
    ltLo, unLo := ltLo0, unLo0;
    while true
      invariant unLo0 <= unLo
      invariant Zones(eclass[..], fmap[..], lo, ltLo, unLo, unHi, gtHi, hi, med)
      invariant SamePart(fmap[..], f0, lo, hi + 1)
      invariant unLo - ltLo >= unLo0 - ltLo0
      decreases unHi - unLo
    {
      if unLo > unHi { break; }
      var n := eclass[fmap[unLo]] - med;
      if n == 0 {
        SwapIn(fmap, unLo, ltLo, f0, lo, hi + 1);
        ltLo, unLo := ltLo + 1, unLo + 1;
        continue;
      }
      if n > 0 { break; }
      unLo := unLo + 1;
    }
  }

  /** Moves unHi down past keys that are not below med. */
  method ScanDown(fmap: array<int>, eclass: array<int>, ghost lo: int, ghost ltLo: int, unLo: int, unHi0: int,
      gtHi0: int, ghost hi: int, med: int,
                  ghost f0: seq<int>)
    returns (unHi: int, gtHi: int)
    requires fmap != eclass
    requires Zones(eclass[..], fmap[..], lo, ltLo, unLo, unHi0, gtHi0, hi, med)
    requires unLo <= unHi0 ==> eclass[fmap[unLo]] > med
    requires SamePart(fmap[..], f0, lo, hi + 1)
    modifies fmap
    ensures Zones(eclass[..], fmap[..], lo, ltLo, unLo, unHi, gtHi, hi, med)
    ensures SamePart(fmap[..], f0, lo, hi + 1)
    ensures unHi <= unHi0 && (unLo <= unHi ==> eclass[fmap[unHi]] < med < eclass[fmap[unLo]])
  {
    hide SamePart;
    unHi, gtHi := unHi0, gtHi0;
    while true
      invariant unHi <= unHi0
      invariant Zones(eclass[..], fmap[..], lo, ltLo, unLo, unHi, gtHi, hi, med)
      invariant SamePart(fmap[..], f0, lo, hi + 1)
      invariant unLo <= unHi ==> eclass[fmap[unLo]] > med
      decreases unHi - unLo
    {
      if unLo > unHi { break; }
      var n := eclass[fmap[unHi]] - med;
      if n == 0 {
        SwapIn(fmap, unHi, gtHi, f0, lo, hi + 1);
        gtHi, unHi := gtHi - 1, unHi - 1;
        continue;
      }
      if n < 0 { break; }
      unHi := unHi - 1;
    }
  }

  /** The two scans and the exchange between them, until the pointers cross. */
  method Scan(fmap: array<int>, eclass: array<int>, lo: int, hi: int, med: int)
    returns (ltLo: int, unLo: int, unHi: int, gtHi: int)
    requires fmap != eclass
    requires 0 <= lo <= hi < fmap.Length
    requires Indexes(fmap[..], lo, hi + 1, eclass.Length)
    modifies fmap
    ensures SamePart(fmap[..], old(fmap[..]), lo, hi + 1)
    ensures Zones(eclass[..], fmap[..], lo, ltLo, unLo, unHi, gtHi, hi, med)
    ensures unHi == unLo - 1
  {
    hide SamePart;
    ghost var f0 := fmap[..];
    SamePartSelf(f0, lo, hi + 1);
    unLo, ltLo, unHi, gtHi := lo, lo, hi, hi;
    while true
      invariant SamePart(fmap[..], f0, lo, hi + 1)
      invariant Zones(eclass[..], fmap[..], lo, ltLo, unLo, unHi, gtHi, hi, med)
      decreases unHi - unLo + 1
    {
      ltLo, unLo := ScanUp(fmap, eclass, lo, ltLo, unLo, unHi, gtHi, hi, med, f0);
      unHi, gtHi := ScanDown(fmap, eclass, lo, ltLo, unLo, unHi, gtHi, hi, med, f0);
      if unLo > unHi { break; }
      SwapIn(fmap, unLo, unHi, f0, lo, hi + 1);
      unLo, unHi := unLo + 1, unHi - 1;
    }
  }

  /** Three-way split of fmap[lo..hi] around the key med: keys below it up to n,
      equal between n and m, above it from m on. */
  method Partition(fmap: array<int>, eclass: array<int>, lo: int, hi: int, med: int)
    returns (allEqual: bool, n: int, m: int)
    requires fmap != eclass
    requires 0 <= lo <= hi < fmap.Length
    requires Indexes(fmap[..], lo, hi + 1, eclass.Length)
    modifies fmap
    ensures SamePart(fmap[..], old(fmap[..]), lo, hi + 1)
    ensures Split(eclass[..], fmap[..], lo, n, m, hi, med)
    ensures allEqual ==> n == lo - 1 && m == hi + 1
  {
    hide SamePart, Zones, Split, BlocksSwapped;
    ghost var f0 := fmap[..];
    var ltLo, unLo, unHi, gtHi := Scan(fmap, eclass, lo, hi, med);
    ZonesBounds(eclass[..], fmap[..], lo, ltLo, unLo, unHi, gtHi, hi, med);
    if gtHi < ltLo { return true, lo - 1, hi + 1; }
    n := if ltLo - lo < unLo - ltLo then ltLo - lo else unLo - ltLo;
    ghost var f1 := fmap[..];
    VectorSwap(fmap, lo, unLo - n, n, lo, hi + 1);
    SamePartTrans(fmap[..], f1, f0, lo, hi + 1);
    m := if hi - gtHi < gtHi - unHi then hi - gtHi else gtHi - unHi;
    ghost var f2 := fmap[..];
    VectorSwap(fmap, unLo, hi - m + 1, m, lo, hi + 1);
    SamePartTrans(fmap[..], f2, f0, lo, hi + 1);
    Gathered(eclass[..], f1, f2, fmap[..], lo, ltLo, unLo, gtHi, hi, med, n, m);
    n := lo + unLo - ltLo - 1;
    m := hi - (gtHi - unHi) + 1;
    allEqual := false;
  }

  /** The entry at depth k holds at most size / 2^k positions. */
  ghost predicate Halving(los: seq<int>, his: seq<int>, sp: int, size: nat) {
    && 0 <= sp <= |los| == |his|
    && (forall k :: 0 <= k < sp ==> los[k] <= his[k] + 1 && (his[k] - los[k] + 1) * Pow2(k) <= size)
  }

  ghost function Pending(los: seq<int>, his: seq<int>, sp: int): nat
    requires 0 <= sp <= |los| == |his|
    requires forall k :: 0 <= k < sp ==> los[k] <= his[k] + 1
  {
    if sp == 0 then 0 else Pending(los, his, sp - 1) + 2 * (his[sp - 1] - los[sp - 1] + 1) + 1
  }

  lemma {:induction false} PendingPrefix(los: seq<int>, his: seq<int>, los': seq<int>, his': seq<int>, sp: int)
    requires 0 <= sp <= |los| == |his| && sp <= |los'| == |his'|
    requires forall k :: 0 <= k < sp ==> los[k] <= his[k] + 1 && los'[k] == los[k] && his'[k] == his[k]
    ensures Pending(los', his', sp) == Pending(los, his, sp)
  {
    if sp > 0 { PendingPrefix(los, his, los', his', sp - 1); }
  }

  /** A split segment is owned in two parts; the middle is finished. */
  function Divided(owner: seq<int>, a: int, n: int, m: int, b: int, kl: int, kr: int): (r: seq<int>)
    ensures |r| == |owner|
  {
    seq(|owner|, p requires 0 <= p < |owner| =>
      if a <= p <= n then kl else if m <= p <= b then kr else if a <= p <= b then -1 else owner[p])
  }

  lemma DividedOrdered(key: seq<int>, f0: seq<int>, f1: seq<int>, owner: seq<int>, los: seq<int>, his: seq<int>, k: int,
      lo: int, hi: int,
                       n: int, m: int, med: int, kl: int, kr: int)
    requires Ordered(key, f0, owner, lo, hi) && Owned(owner, los, his, k + 1, lo, hi) && 0 <= k
    requires SamePart(f1, f0, los[k], his[k] + 1)
    requires Split(key, f1, los[k], n, m, his[k], med)
    requires kl >= 0 && kr >= 0
    ensures Ordered(key, f1, Divided(owner, los[k], n, m, his[k], kl, kr), lo, hi)
  {
    Resettled(key, f0, f1, owner, Divided(owner, los[k], n, m, his[k], kl, kr), k, los[k], his[k], lo, hi);
  }

  lemma DividedOwned(owner: seq<int>, los: seq<int>, his: seq<int>, los': seq<int>, his': seq<int>, k: int, lo: int,
      hi: int,
                     n: int, m: int, leftFirst: bool)
    requires Owned(owner, los, his, k + 1, lo, hi) && 0 <= k
    requires los[k] <= n + 1 <= m <= his[k] + 1
    requires k + 2 <= |los'| == |his'|
    requires forall j :: 0 <= j < k ==> los'[j] == los[j] && his'[j] == his[j]
    requires leftFirst ==> los'[k] == los[k] && his'[k] == n && los'[k + 1] == m && his'[k + 1] == his[k]
    requires !leftFirst ==> los'[k + 1] == los[k] && his'[k + 1] == n && los'[k] == m && his'[k] == his[k]
    ensures Owned(Divided(owner, los[k], n, m, his[k], if leftFirst then k else k + 1, if leftFirst then k + 1 else k),
                  los', his', k + 2, lo, hi)
  {
    var d := Divided(owner, los[k], n, m, his[k], if leftFirst then k else k + 1, if leftFirst then k + 1 else k);
    forall j | 0 <= j < k + 2 ensures lo <= los'[j] <= his'[j] + 1 <= hi + 1 {
      if j < k { assert los[j] <= his[j] + 1; }
    }
    forall j, p | 0 <= j < k + 2 && los'[j] <= p <= his'[j] ensures d[p] == j {
      if j < k { assert los[j] <= p <= his[j] && owner[p] == j; }
    }
    forall p | lo <= p <= hi && d[p] >= 0 ensures d[p] < k + 2 && los'[d[p]] <= p <= his'[d[p]] {
      if !(los[k] <= p <= his[k]) {
        assert d[p] == owner[p] && owner[p] != k;
      }
    }
  }

  /** The key chosen as pivot is one of the segment's, so the middle is not empty. */
  lemma PivotInMiddle(key: seq<int>, f0: seq<int>, f1: seq<int>, lo: int, n: int, m: int, hi: int, med: int, p: int)
    requires Split(key, f1, lo, n, m, hi, med) && SamePart(f1, f0, lo, hi + 1)
    requires lo <= p <= hi && 0 <= f0[p] < |key| && key[f0[p]] == med
    ensures n + 1 < m
  {
    var q := SamePartOrigin(f0, f1, lo, hi + 1, p);
  }

  /** Larger part below, smaller part on top: the halving bound survives a push. */
  lemma HalvingPush(los: seq<int>, his: seq<int>, los': seq<int>, his': seq<int>, k: int, size: nat)
    requires Halving(los, his, k + 1, size) && 0 <= k && k + 2 <= |los'| == |his'|
    requires forall j :: 0 <= j < k ==> los'[j] == los[j] && his'[j] == his[j]
    requires los'[k] <= his'[k] + 1 && los'[k + 1] <= his'[k + 1] + 1
    requires his'[k] - los'[k] <= his[k] - los[k]
    requires 2 * (his'[k + 1] - los'[k + 1] + 1) <= his[k] - los[k] + 1
    ensures Halving(los', his', k + 2, size)
  {
    MulMono(his'[k] - los'[k] + 1, his[k] - los[k] + 1, Pow2(k));
    MulMono(2 * (his'[k + 1] - los'[k + 1] + 1), his[k] - los[k] + 1, Pow2(k));
    var t := his'[k + 1] - los'[k + 1] + 1;
    assert t * Pow2(k + 1) == 2 * t * Pow2(k);
  }

  /** A segment of more than ten positions sits at depth 30 at most. */
  lemma DepthBound(k: nat, size: int, total: nat)
    requires size > SMALL_THRESH && size * Pow2(k) <= total < 0x8000_0000
    ensures k <= 30
  {
    if k > 30 {
      Pow2Monotone(31, k);
      Pow2Constants();
      MulMono(1, size, Pow2(k));
    }
  }

  /** Everything the quicksort keeps between two pops of its stack. */
  ghost predicate SortState(key: seq<int>, f0: seq<int>, f: seq<int>, owner: seq<int>, los: seq<int>, his: seq<int>,
      sp: int, lo: int, hi: int)
  {
    && 0 <= lo <= hi < |f| && 0 <= sp <= 32 < |los| == |his|
    && SamePart(f, f0, lo, hi + 1)
    && Indexes(f, lo, hi + 1, |key|)
    && Ordered(key, f, owner, lo, hi)
    && Owned(owner, los, his, sp, lo, hi)
    && Halving(los, his, sp, hi - lo + 1)
  }

  lemma StackStart(key: seq<int>, f: seq<int>, owner: seq<int>, los: seq<int>, his: seq<int>, lo: int, hi: int)
    requires 0 <= lo <= hi < |f| && |los| == |his| > 32 && los[0] == lo && his[0] == hi
    requires Indexes(f, lo, hi + 1, |key|)
    requires |owner| == |f| && forall p :: 0 <= p < |f| ==> owner[p] == 0
    ensures SortState(key, f, f, owner, los, his, 1, lo, hi)
  {
    hide SamePart;
    SamePartSelf(f, lo, hi + 1);
  }

  lemma StackTop(key: seq<int>, f0: seq<int>, f: seq<int>, owner: seq<int>, los: seq<int>, his: seq<int>, sp: int,
      lo: int, hi: int)
    requires sp > 0 && SortState(key, f0, f, owner, los, his, sp, lo, hi)
    ensures lo <= los[sp - 1] <= his[sp - 1] + 1 <= hi + 1
    ensures Indexes(f, los[sp - 1], his[sp - 1] + 1, |key|)
    ensures Halving(los, his, sp - 1, hi - lo + 1)
    ensures PendingOf(los, his, sp - 1) < PendingOf(los, his, sp)
    ensures his[sp - 1] - los[sp - 1] >= SMALL_THRESH && hi - lo + 1 < 0x8000_0000 ==> sp <= 31
  {
    hide SamePart, Ordered;
    assert forall k :: 0 <= k < sp ==> los[k] <= his[k] + 1;
    if his[sp - 1] - los[sp - 1] >= SMALL_THRESH && hi - lo + 1 < 0x8000_0000 {
      DepthBound(sp - 1, his[sp - 1] - los[sp - 1] + 1, hi - lo + 1);
    }
  }

  /** Popping a segment and sorting it outright. */
  lemma ReleaseStep(key: seq<int>, f0: seq<int>, f1: seq<int>, f2: seq<int>, owner: seq<int>, los: seq<int>,
      his: seq<int>, sp: int, lo: int, hi: int)
    requires sp > 0 && SortState(key, f0, f1, owner, los, his, sp, lo, hi)
    requires SamePart(f2, f1, los[sp - 1], his[sp - 1] + 1)
    requires Indexes(f2, los[sp - 1], his[sp - 1] + 1, |key|) && KeySorted(key, f2, los[sp - 1], his[sp - 1] + 1)
    ensures SortState(key, f0, f2, Released(owner, los[sp - 1], his[sp - 1]), los, his, sp - 1, lo, hi)
  {
    hide SamePart, Ordered, Owned, Halving, KeySorted, Pending, PendingOf, Released;
    StackTop(key, f0, f1, owner, los, his, sp, lo, hi);
    ReleasedOrdered(key, f1, f2, owner, los, his, sp - 1, lo, hi);
    Rearranged(f2, f1, f0, los[sp - 1], his[sp - 1], lo, hi, |key|);
  }

  /** Popping a segment, splitting it, and pushing the parts, the larger one first. */
  lemma DivideStep(key: seq<int>, f0: seq<int>, f1: seq<int>, f2: seq<int>, owner: seq<int>, los: seq<int>,
      his: seq<int>,
                   los': seq<int>, his': seq<int>, sp: int, lo: int, hi: int, n: int, m: int, med: int, mid: int,
                     leftFirst: bool)
    requires 0 < sp <= 31 && SortState(key, f0, f1, owner, los, his, sp, lo, hi)
    requires SamePart(f2, f1, los[sp - 1], his[sp - 1] + 1)
    requires Split(key, f2, los[sp - 1], n, m, his[sp - 1], med)
    requires los[sp - 1] <= mid <= his[sp - 1] && 0 <= f1[mid] < |key| && key[f1[mid]] == med
    requires |los'| == |his'| == |los|
    requires forall j :: 0 <= j < sp - 1 ==> los'[j] == los[j] && his'[j] == his[j]
    requires leftFirst == (n - los[sp - 1] > his[sp - 1] - m)
    requires leftFirst ==> los'[sp - 1] == los[sp - 1] && his'[sp - 1] == n && los'[sp] == m && his'[sp] == his[sp - 1]
    requires !leftFirst ==> los'[sp] == los[sp - 1] && his'[sp] == n && los'[sp - 1] == m && his'[sp - 1] == his[sp - 1]
    ensures SortState(key, f0, f2, Divided(owner, los[sp - 1], n, m, his[sp - 1], if leftFirst
                                           then sp - 1 else sp, if leftFirst then sp else sp - 1),
                      los', his', sp + 1, lo, hi)
    ensures PendingOf(los', his', sp + 1) < PendingOf(los, his, sp)
  {
    hide SamePart, Ordered, Owned, Halving, Split, Pending, PendingOf, Divided;
    StackTop(key, f0, f1, owner, los, his, sp, lo, hi);
    PivotInMiddle(key, f1, f2, los[sp - 1], n, m, his[sp - 1], med, mid);
    SplitBounds(key, f2, los[sp - 1], n, m, his[sp - 1], med);
    DividedOrdered(key, f1, f2, owner, los, his, sp - 1, lo, hi, n, m, med, if leftFirst
                   then sp - 1 else sp, if leftFirst then sp else sp - 1);
    DividedOwned(owner, los, his, los', his', sp - 1, lo, hi, n, m, leftFirst);
    HalvingPush(los, his, los', his', sp - 1, hi - lo + 1);
    PendingPush(los, his, los', his', sp - 1, hi - lo + 1);
    Rearranged(f2, f1, f0, los[sp - 1], his[sp - 1], lo, hi, |key|);
  }

  lemma PendingPush(los: seq<int>, his: seq<int>, los': seq<int>, his': seq<int>, k: int, size: nat)
    requires 0 <= k && k + 2 <= |los'| == |his'| && Halving(los, his, k + 1, size)
    requires forall j :: 0 <= j < k ==> los'[j] == los[j] && his'[j] == his[j]
    requires los'[k] <= his'[k] + 1 && los'[k + 1] <= his'[k + 1] + 1
    requires his'[k] - los'[k] + 1 + his'[k + 1] - los'[k + 1] + 1 < his[k] - los[k] + 1
    ensures PendingOf(los', his', k + 2) < PendingOf(los, his, k + 1)
  {
    assert forall j :: 0 <= j < k + 2 ==> los'[j] <= his'[j] + 1;
    PendingPrefix(los, his, los', his', k);
    assert Pending(los', his', k + 1) == Pending(los', his', k) + 2 * (his'[k] - los'[k] + 1) + 1;
  }

  /** Pending, made total for use as a measure. */
  ghost function PendingOf(los: seq<int>, his: seq<int>, sp: int): nat {
    if 0 <= sp <= |los| == |his| && (forall k :: 0 <= k < sp ==> los[k] <= his[k] + 1) then Pending(los, his, sp) else 0
  }

  lemma EqualSorted(key: seq<int>, f: seq<int>, lo: int, hi: int, med: int)
    requires Split(key, f, lo, lo - 1, hi + 1, hi, med)
    ensures Indexes(f, lo, hi + 1, |key|) && KeySorted(key, f, lo, hi + 1)
  {
  }

  lemma AllSettled(key: seq<int>, f0: seq<int>, f: seq<int>, owner: seq<int>, los: seq<int>, his: seq<int>, lo: int,
      hi: int)
    requires SortState(key, f0, f, owner, los, his, 0, lo, hi)
    ensures SamePart(f, f0, lo, hi + 1) && Indexes(f, lo, hi + 1, |key|) && KeySorted(key, f, lo, hi + 1)
  {
    hide SamePart;
  }

  /** Pushes the segments [lo, n] and [m, hi], the larger one first. */
  method PushLargerFirst(stackLo: array<int>, stackHi: array<int>, sp: int, lo: int, n: int, m: int, hi: int)
    requires stackLo != stackHi && 0 <= sp && sp + 1 < stackLo.Length == stackHi.Length
    modifies stackLo, stackHi
    ensures if n - lo > hi - m
      then stackLo[..] == old(stackLo[..])[sp := lo][sp + 1 := m]
           && stackHi[..] == old(stackHi[..])[sp := n][sp + 1 := hi]
      else stackLo[..] == old(stackLo[..])[sp := m][sp + 1 := lo]
           && stackHi[..] == old(stackHi[..])[sp := hi][sp + 1 := n]
  {
    if n - lo > hi - m {
      stackLo[sp], stackHi[sp] := lo, n;
      stackLo[sp + 1], stackHi[sp + 1] := m, hi;
    } else {
      stackLo[sp], stackHi[sp] := m, hi;
      stackLo[sp + 1], stackHi[sp + 1] := lo, n;
    }
  }

  /** Sorts fmap[loSt..hiSt] by key. The stack never comes near its 100 entries. */
  method FallbackQSort3(fmap: array<int>, eclass: array<int>, loSt: int, hiSt: int)
    requires fmap != eclass
    requires 0 <= loSt <= hiSt < fmap.Length < 0x8000_0000
    requires Indexes(fmap[..], loSt, hiSt + 1, eclass.Length)
    modifies fmap
    ensures SamePart(fmap[..], old(fmap[..]), loSt, hiSt + 1)
    ensures Indexes(fmap[..], loSt, hiSt + 1, eclass.Length)
    ensures KeySorted(eclass[..], fmap[..], loSt, hiSt + 1)
  {
    hide SamePart, Ordered, Owned, Halving, Pending, PendingOf, Split, KeySorted, SortState, Indexes, Released, Divided;
    var stackLo, stackHi := new int[STACK_SIZE], new int[STACK_SIZE];
    var r := 0;
    var sp := 0;
    stackLo[sp], stackHi[sp] := loSt, hiSt;
    sp := sp + 1;
    ghost var f0, key := fmap[..], eclass[..];
    ghost var owner := seq(fmap.Length, _ => 0);
    StackStart(key, f0, owner, stackLo[..], stackHi[..], loSt, hiSt);
    while sp > 0
      invariant 0 <= sp <= 32
      invariant SortState(key, f0, fmap[..], owner, stackLo[..], stackHi[..], sp, loSt, hiSt)
      decreases PendingOf(stackLo[..], stackHi[..], sp)
    {
      assert sp < STACK_SIZE - 1;  // error 1004 cannot happen
      ghost var los, his, f1 := stackLo[..], stackHi[..], fmap[..];
      StackTop(key, f0, f1, owner, los, his, sp, loSt, hiSt);
      sp := sp - 1;
      var lo, hi := stackLo[sp], stackHi[sp];
      if hi - lo < SMALL_THRESH {
        FallbackSimpleSort(fmap, eclass, lo, hi);
        ReleaseStep(key, f0, f1, fmap[..], owner, los, his, sp + 1, loSt, hiSt);
        owner := Released(owner, lo, hi);
        continue;
      }
      r := (r * 7621 + 1) % 32768;
      var r3 := r % 3;
      var mid := if r3 == 0 then lo else if r3 == 1 then (lo + hi) / 2 else hi;
      IndexAt(f1, lo, hi + 1, eclass.Length, mid);
      var med := eclass[fmap[mid]];
      var allEqual, n, m := Partition(fmap, eclass, lo, hi, med);
      if allEqual {
        EqualSorted(key, fmap[..], lo, hi, med);
        ReleaseStep(key, f0, f1, fmap[..], owner, los, his, sp + 1, loSt, hiSt);
        owner := Released(owner, lo, hi);
        continue;
      }
      ghost var leftFirst := n - lo > hi - m;
      PushLargerFirst(stackLo, stackHi, sp, lo, n, m, hi);
      DivideStep(key, f0, f1, fmap[..], owner, los, his, stackLo[..], stackHi[..], sp + 1, loSt, hiSt, n, m, med, mid,
                 leftFirst);
      owner := Divided(owner, lo, n, m, hi, if leftFirst then sp else sp + 1, if leftFirst then sp + 1 else sp);
      sp := sp + 2;
    }
    AllSettled(key, f0, fmap[..], owner, stackLo[..], stackHi[..], loSt, hiSt);
  }
}
