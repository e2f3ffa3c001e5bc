/** The three-way quicksort of the main block sorter, which goes one byte
    deeper where bytes are equal. */
module MainQuickSort {
  import opened Bits
  import opened Rotations
  import opened Segments
  import opened Partitioning
  import opened RotationRank
  import opened MainCompare
  import opened MainShellSort

  const SMALL_THRESH := 20
  const DEPTH_THRESH := N_RADIX + N_QSORT
  const STACK_SIZE := 100

  /** The byte of each rotation at depth d. */
  ghost function DepthKey(b: Block, d: nat): (k: seq<int>)
    requires d <= |b|
    ensures |k| == |b| && forall x :: 0 <= x < |b| ==> k[x] == b[Fwd(|b|, x, d)]
  {
    seq(|b|, x requires 0 <= x < |b| => b[Fwd(|b|, x, d)] as int)
  }

  /** Of three bytes, one that is neither below nor above both others. */
  function Med3(a: Byte, b: Byte, c: Byte): (m: Byte)
    ensures m == a || m == b || m == c
    ensures !(m < a && m < b) && !(m < a && m < c) && !(m < b && m < c)
    ensures !(m > a && m > b) && !(m > a && m > c) && !(m > b && m > c)
  {
    var (lo, hi) := if a > b then (b, a) else (a, b);
    if hi > c then (if lo > c then lo else c) else hi
  }

  method ByteAt(ptr: array<int>, block: array<Byte>, p: int, d: int, ghost b: Block) returns (c: int)
    requires Overshot(b, block[..]) && 0 <= p < ptr.Length && 0 <= ptr[p] < |b| && 0 <= d <= 15
    ensures c == DepthKey(b, d)[ptr[p]]
  {
    c := block[ptr[p] + d];
    assert c == block[..][ptr[p] + d];
  }

  method ScanUp(ptr: array<int>, block: array<Byte>, d: int, lo: int, ltLo0: int, unLo0: int, unHi: int,
      ghost gtHi: int, ghost hi: int, med: int,
                ghost f0: seq<int>, ghost b: Block)
    returns (ltLo: int, unLo: int)
    requires ptr as object != block && Overshot(b, block[..]) && 0 <= d <= 15
    requires Zones(DepthKey(b, d), ptr[..], lo, ltLo0, unLo0, unHi, gtHi, hi, med)
    requires SamePart(ptr[..], f0, lo, hi + 1)
    modifies ptr
    ensures Zones(DepthKey(b, d), ptr[..], lo, ltLo, unLo, unHi, gtHi, hi, med)
    ensures SamePart(ptr[..], f0, lo, hi + 1)
    ensures unLo0 <= unLo && (unLo <= unHi ==> DepthKey(b, d)[ptr[unLo]] > med)
  {
    hide SamePart, Overshot, DepthKey;
    OvershotSize(b, block[..]);
    ghost var key := DepthKey(b, d);
    ltLo, unLo := ltLo0, unLo0;
    while true
      invariant unLo0 <= unLo
      invariant Zones(key, ptr[..], lo, ltLo, unLo, unHi, gtHi, hi, med)
      invariant SamePart(ptr[..], f0, lo, hi + 1)
      decreases unHi - unLo
    {
      if unLo > unHi { break; }
      var c := ByteAt(ptr, block, unLo, d, b);
      var n := c - med;
      if n == 0 {
        SwapIn(ptr, unLo, ltLo, f0, lo, hi + 1);
        ltLo, unLo := ltLo + 1, unLo + 1;
        continue;
      }
      if n > 0 { break; }
      unLo := unLo + 1;
    }
  }

  method ScanDown(ptr: array<int>, block: array<Byte>, d: int, ghost lo: int, ghost ltLo: int, unLo: int, unHi0: int,
      gtHi0: int, ghost hi: int, med: int,
                  ghost f0: seq<int>, ghost b: Block)
    returns (unHi: int, gtHi: int)
    requires ptr as object != block && Overshot(b, block[..]) && 0 <= d <= 15
    requires Zones(DepthKey(b, d), ptr[..], lo, ltLo, unLo, unHi0, gtHi0, hi, med)
    requires unLo <= unHi0 ==> DepthKey(b, d)[ptr[unLo]] > med
    requires SamePart(ptr[..], f0, lo, hi + 1)
    modifies ptr
    ensures Zones(DepthKey(b, d), ptr[..], lo, ltLo, unLo, unHi, gtHi, hi, med)
    ensures SamePart(ptr[..], f0, lo, hi + 1)
    ensures unHi <= unHi0 && (unLo <= unHi ==> DepthKey(b, d)[ptr[unHi]] < med < DepthKey(b, d)[ptr[unLo]])
  {
    hide SamePart, Overshot, DepthKey;
    OvershotSize(b, block[..]);
    ghost var key := DepthKey(b, d);
    unHi, gtHi := unHi0, gtHi0;
    while true
      invariant unHi <= unHi0
      invariant Zones(key, ptr[..], lo, ltLo, unLo, unHi, gtHi, hi, med)
      invariant SamePart(ptr[..], f0, lo, hi + 1)
      invariant unLo <= unHi ==> key[ptr[unLo]] > med
      decreases unHi - unLo
    {
      if unLo > unHi { break; }
      var c := ByteAt(ptr, block, unHi, d, b);
      var n := c - med;
      if n == 0 {
        SwapIn(ptr, unHi, gtHi, f0, lo, hi + 1);
        gtHi, unHi := gtHi - 1, unHi - 1;
        continue;
      }
      if n < 0 { break; }
      unHi := unHi - 1;
    }
  }

  method Scan(ptr: array<int>, block: array<Byte>, d: int, lo: int, hi: int, med: int, ghost b: Block)
    returns (ltLo: int, unLo: int, unHi: int, gtHi: int)
    requires ptr as object != block && Overshot(b, block[..]) && 0 <= d <= 15
    requires 0 <= lo <= hi < ptr.Length && Indexes(ptr[..], lo, hi + 1, |b|)
    modifies ptr
    ensures SamePart(ptr[..], old(ptr[..]), lo, hi + 1)
    ensures Zones(DepthKey(b, d), ptr[..], lo, ltLo, unLo, unHi, gtHi, hi, med)
    ensures unHi == unLo - 1
  {
    hide SamePart, Overshot, DepthKey;
    OvershotSize(b, block[..]);
    ghost var f0, key := ptr[..], DepthKey(b, d);
    SamePartSelf(f0, lo, hi + 1);
    unLo, ltLo, unHi, gtHi := lo, lo, hi, hi;
    while true
      invariant SamePart(ptr[..], f0, lo, hi + 1)
      invariant Zones(key, ptr[..], lo, ltLo, unLo, unHi, gtHi, hi, med)
      decreases unHi - unLo + 1
    {
      ltLo, unLo := ScanUp(ptr, block, d, lo, ltLo, unLo, unHi, gtHi, hi, med, f0, b);
      unHi, gtHi := ScanDown(ptr, block, d, lo, ltLo, unLo, unHi, gtHi, hi, med, f0, b);
      if unLo > unHi { break; }
      SwapIn(ptr, unLo, unHi, f0, lo, hi + 1);
      unLo, unHi := unLo + 1, unHi - 1;
    }
  }

  /** Three-way split of ptr[lo..hi] by the byte at depth d. */
  method Partition(ptr: array<int>, block: array<Byte>, d: int, lo: int, hi: int, med: int, ghost b: Block)
    returns (allEqual: bool, n: int, m: int)
    requires ptr as object != block && Overshot(b, block[..]) && 0 <= d <= 15
    requires 0 <= lo <= hi < ptr.Length && Indexes(ptr[..], lo, hi + 1, |b|)
    modifies ptr
    ensures SamePart(ptr[..], old(ptr[..]), lo, hi + 1)
    ensures d <= |b| && Split(DepthKey(b, d), ptr[..], lo, n, m, hi, med)
    ensures allEqual ==> n == lo - 1 && m == hi + 1
  {
    hide SamePart, Zones, Split, BlocksSwapped, Overshot, DepthKey;
    OvershotSize(b, block[..]);
    ghost var f0, key := ptr[..], DepthKey(b, d);
    var ltLo, unLo, unHi, gtHi := Scan(ptr, block, d, lo, hi, med, b);
    ZonesBounds(key, ptr[..], lo, ltLo, unLo, unHi, gtHi, hi, med);
    if gtHi < ltLo { return true, lo - 1, hi + 1; }
    n := if ltLo - lo < unLo - ltLo then ltLo - lo else unLo - ltLo;
    ghost var f1 := ptr[..];
    VectorSwap(ptr, lo, unLo - n, n, lo, hi + 1);
    SamePartTrans(ptr[..], f1, f0, lo, hi + 1);
    m := if hi - gtHi < gtHi - unHi then hi - gtHi else gtHi - unHi;
    ghost var f2 := ptr[..];
    VectorSwap(ptr, unLo, hi - m + 1, m, lo, hi + 1);
    SamePartTrans(ptr[..], f2, f0, lo, hi + 1);
    Gathered(key, f1, f2, ptr[..], lo, ltLo, unLo, gtHi, hi, med, n, m);
    n := lo + unLo - ltLo - 1;
    m := hi - (gtHi - unHi) + 1;
    allEqual := false;
  }

  // ---- the stack of pending segments ----

  datatype Piece = Piece(lo: int, hi: int, d: int)

  function Width(p: Piece): int { p.hi - p.lo }

  /** Largest first, by the three conditional exchanges. */
  function BySize(a: Piece, b: Piece, c: Piece): (r: (Piece, Piece, Piece))
    ensures Width(r.0) >= Width(r.1) >= Width(r.2)
    ensures r in {(a, b, c), (a, c, b), (b, a, c), (b, c, a), (c, a, b), (c, b, a)}
  {
    var (x, y) := if Width(a) < Width(b) then (b, a) else (a, b);
    var (y', z) := if Width(y) < Width(c) then (c, y) else (y, c);
    if Width(x) < Width(y') then (y', x, z) else (x, y', z)
  }

  /** Where a piece went: 0, 1 or 2 places above the popped entry. */
  ghost function SlotOf(p: Piece, r: (Piece, Piece, Piece)): (k: int)
    ensures 0 <= k <= 2
  {
    if r.0 == p then 0 else if r.1 == p then 1 else 2
  }

  /** The entry at depth k holds at most size / 2^(k/2) positions. */
  ghost predicate Thinning(los: seq<int>, his: seq<int>, sp: int, size: nat) {
    && 0 <= sp <= |los| == |his|
    && (forall k :: 0 <= k < sp ==> los[k] <= his[k] + 1 && (his[k] - los[k] + 1) * Pow2(k / 2) <= size)
  }

  /** Every pending segment is uniform up to its depth. */
  ghost predicate DepthsHold(b: Block, f: seq<int>, los: seq<int>, his: seq<int>, ds: seq<int>, sp: int) {
    && 0 <= sp <= |los| == |his| == |ds|
    && (forall k :: 0 <= k < sp ==> 0 <= ds[k] <= 15 && DepthEqual(b, f, los[k], his[k], ds[k]))
  }

  ghost function Work(los: seq<int>, his: seq<int>, ds: seq<int>, sp: int): int
    requires 0 <= sp <= |los| == |his| == |ds|
  {
    if sp == 0 then 0 else Work(los, his, ds, sp - 1) + EntryWork(los[sp - 1], his[sp - 1], ds[sp - 1])
  }

  ghost function EntryWork(lo: int, hi: int, d: int): int {
    3 * (16 - d) * (hi - lo + 1) + 1
  }

  lemma {:induction false} WorkPrefix(los: seq<int>, his: seq<int>, ds: seq<int>, los': seq<int>, his': seq<int>,
      ds': seq<int>, sp: int)
    requires 0 <= sp <= |los| == |his| == |ds| && sp <= |los'| == |his'| == |ds'|
    requires forall k :: 0 <= k < sp ==> los'[k] == los[k] && his'[k] == his[k] && ds'[k] == ds[k]
    ensures Work(los', his', ds', sp) == Work(los, his, ds, sp)
  {
    if sp > 0 { WorkPrefix(los, his, ds, los', his', ds', sp - 1); }
  }

  lemma EntryPositive(lo: int, hi: int, d: int)
    requires lo <= hi + 1 && d <= 15
    ensures EntryWork(lo, hi, d) >= 1
  {
    MulMono(0, hi - lo + 1, 3 * (16 - d));
  }

  lemma EntryDeeper(lo: int, hi: int, d: int)
    requires lo <= hi
    ensures EntryWork(lo, hi, d + 1) < EntryWork(lo, hi, d)
  {
    var w := hi - lo + 1;
    assert 3 * (16 - d) * w == 3 * (16 - (d + 1)) * w + 3 * w;
  }

  lemma {:induction false} WorkNonNegative(los: seq<int>, his: seq<int>, ds: seq<int>, sp: int)
    requires 0 <= sp <= |los| == |his| == |ds|
    requires forall k :: 0 <= k < sp ==> los[k] <= his[k] + 1 && ds[k] <= 15
    ensures Work(los, his, ds, sp) >= 0
  {
    if sp > 0 {
      WorkNonNegative(los, his, ds, sp - 1);
      EntryPositive(los[sp - 1], his[sp - 1], ds[sp - 1]);
    }
  }

  /** Everything the quicksort keeps between two pops of its stack. */
  ghost predicate SortState(b: Block, f0: seq<int>, f: seq<int>, owner: seq<int>, los: seq<int>, his: seq<int>,
      ds: seq<int>, sp: int, lo: int, hi: int)
  {
    && 0 <= lo <= hi < |f| && 0 <= sp <= 65 <= |los| == |his| == |ds|
    && SamePart(f, f0, lo, hi + 1)
    && Indexes(f, lo, hi + 1, |b|)
    && Ordered(Ranks(b), f, owner, lo, hi)
    && Owned(owner, los, his, sp, lo, hi)
    && Thinning(los, his, sp, hi - lo + 1)
    && DepthsHold(b, f, los, his, ds, sp)
  }

  lemma StackStart(b: Block, f: seq<int>, owner: seq<int>, los: seq<int>, his: seq<int>, ds: seq<int>, lo: int, hi: int)
    requires 0 <= lo <= hi < |f| && |los| == |his| == |ds| >= 65 && los[0] == lo && his[0] == hi && 0 <= ds[0] <= 15
    requires DepthEqual(b, f, lo, hi, ds[0])
    requires |owner| == |f| && forall p :: 0 <= p < |f| ==> owner[p] == 0
    ensures SortState(b, f, f, owner, los, his, ds, 1, lo, hi)
  {
    hide SamePart;
    SamePartSelf(f, lo, hi + 1);
  }

  lemma StackTop(b: Block, f0: seq<int>, f: seq<int>, owner: seq<int>, los: seq<int>, his: seq<int>, ds: seq<int>,
      sp: int, lo: int, hi: int)
    requires sp > 0 && SortState(b, f0, f, owner, los, his, ds, sp, lo, hi)
    ensures lo <= los[sp - 1] <= his[sp - 1] + 1 <= hi + 1
    ensures 0 <= ds[sp - 1] <= 15 && DepthEqual(b, f, los[sp - 1], his[sp - 1], ds[sp - 1])
    ensures Indexes(f, los[sp - 1], his[sp - 1] + 1, |b|)
    ensures his[sp - 1] - los[sp - 1] >= SMALL_THRESH && hi - lo + 1 < 0x8000_0000 ==> sp <= 62
    ensures Work(los, his, ds, sp - 1) >= 0 && Work(los, his, ds, sp) > Work(los, his, ds, sp - 1)
  {
    hide SamePart, Ordered, EntryWork, Cmp, Pow2;
    if his[sp - 1] - los[sp - 1] >= SMALL_THRESH && hi - lo + 1 < 0x8000_0000 {
      ThinDepth((sp - 1) / 2, his[sp - 1] - los[sp - 1] + 1, hi - lo + 1);
    }
    assert forall k :: 0 <= k < sp ==> los[k] <= his[k] + 1 && ds[k] <= 15;
    WorkNonNegative(los, his, ds, sp - 1);
    EntryPositive(los[sp - 1], his[sp - 1], ds[sp - 1]);
  }

  lemma ThinDepth(k: nat, size: int, total: nat)
    requires size > SMALL_THRESH && size * Pow2(k) <= total < 0x8000_0000
    ensures k <= 30
  {
    if k > 30 {
      Pow2Monotone(31, k);
      Pow2Constants();
      MulMono(1, size, Pow2(k));
    }
  }

  /** Rearranging the popped segment leaves the other pending segments uniform. */
  lemma DepthsKept(b: Block, f1: seq<int>, f2: seq<int>, owner: seq<int>, los: seq<int>, his: seq<int>, ds: seq<int>,
      sp: int, lo: int, hi: int)
    requires sp > 0 && DepthsHold(b, f1, los, his, ds, sp) && Owned(owner, los, his, sp, lo, hi)
    requires SamePart(f2, f1, los[sp - 1], his[sp - 1] + 1)
    ensures DepthsHold(b, f2, los, his, ds, sp - 1)
  {
    hide SamePart, Cmp;
    SamePartOutside(f2, f1, los[sp - 1], his[sp - 1] + 1);
    forall k | 0 <= k < sp - 1 ensures DepthEqual(b, f2, los[k], his[k], ds[k]) {
      assert DepthEqual(b, f1, los[k], his[k], ds[k]);
      assert forall p :: los[k] <= p <= his[k] ==> owner[p] == k && f2[p] == f1[p];
    }
  }

  lemma Step1(b: Block, f0: seq<int>, f1: seq<int>, f2: seq<int>, owner: seq<int>, los: seq<int>, his: seq<int>,
      ds: seq<int>, sp: int, lo: int, hi: int)
    requires sp > 0 && SortState(b, f0, f1, owner, los, his, ds, sp, lo, hi)
    requires SamePart(f2, f1, los[sp - 1], his[sp - 1] + 1)
    ensures SamePart(f2, f0, lo, hi + 1) && Indexes(f2, lo, hi + 1, |b|)
    ensures DepthsHold(b, f2, los, his, ds, sp - 1) && Thinning(los, his, sp - 1, hi - lo + 1)
    ensures DepthEqual(b, f2, los[sp - 1], his[sp - 1], ds[sp - 1])
  {
    hide SamePart, Ordered, DepthEqual;
    StackTop(b, f0, f1, owner, los, his, ds, sp, lo, hi);
    DepthsKept(b, f1, f2, owner, los, his, ds, sp, lo, hi);
    Rearranged(f2, f1, f0, los[sp - 1], his[sp - 1], lo, hi, |b|);
    DepthEqualPart(b, f2, f1, los[sp - 1], his[sp - 1], los[sp - 1], his[sp - 1], ds[sp - 1]);
  }

  /** Popping a segment and sorting it outright. */
  lemma ReleaseStep(b: Block, f0: seq<int>, f1: seq<int>, f2: seq<int>, owner: seq<int>, los: seq<int>, his: seq<int>,
      ds: seq<int>, sp: int, lo: int, hi: int)
    requires sp > 0 && SortState(b, f0, f1, owner, los, his, ds, sp, lo, hi)
    requires SamePart(f2, f1, los[sp - 1], his[sp - 1] + 1) && KeySorted(Ranks(b), f2, los[sp - 1], his[sp - 1] + 1)
    ensures SortState(b, f0, f2, Released(owner, los[sp - 1], his[sp - 1]), los, his, ds, sp - 1, lo, hi)
  {
    hide SamePart, Ordered, Owned, Thinning, DepthsHold, Released, Ranks, DepthEqual;
    StackTop(b, f0, f1, owner, los, his, ds, sp, lo, hi);
    Step1(b, f0, f1, f2, owner, los, his, ds, sp, lo, hi);
    ReleasedOrdered(Ranks(b), f1, f2, owner, los, his, sp - 1, lo, hi);
  }

  /** All bytes at depth d are the same: the segment goes back, one byte deeper. */
  lemma DeeperStep(b: Block, f0: seq<int>, f1: seq<int>, f2: seq<int>, owner: seq<int>, los: seq<int>, his: seq<int>,
      ds: seq<int>, ds': seq<int>, sp: int, lo: int, hi: int, med: int)
    requires sp > 0 && SortState(b, f0, f1, owner, los, his, ds, sp, lo, hi) && |b| > N_OVERSHOOT
    requires SamePart(f2, f1, los[sp - 1], his[sp - 1] + 1)
    requires 0 <= ds[sp - 1] <= 14 && Split(DepthKey(b, ds[sp - 1]), f2, los[sp - 1], los[sp - 1] - 1, his[sp - 1] + 1,
                                            his[sp - 1], med)
    requires los[sp - 1] <= his[sp - 1]
    requires ds' == ds[sp - 1 := ds[sp - 1] + 1]
    ensures SortState(b, f0, f2, owner, los, his, ds', sp, lo, hi)
    ensures Work(los, his, ds', sp) < Work(los, his, ds, sp)
  {
    hide SamePart, Split, DepthEqual, Cmp, Ranks, EntryWork, Ordered, Owned, Thinning, DepthsHold;
    StackTop(b, f0, f1, owner, los, his, ds, sp, lo, hi);
    Step1(b, f0, f1, f2, owner, los, his, ds, sp, lo, hi);
    MiddleDeeper(b, f2, los[sp - 1], los[sp - 1] - 1, his[sp - 1] + 1, his[sp - 1], med, ds[sp - 1]);
    WorkPrefix(los, his, ds, los, his, ds', sp - 1);
    EntryDeeper(los[sp - 1], his[sp - 1], ds[sp - 1]);
    DeeperDepths(b, f2, los, his, ds, ds', sp);
    DeeperOrder(b, f0, f1, f2, owner, los, his, ds, sp, lo, hi);
  }

  lemma DeeperDepths(b: Block, f: seq<int>, los: seq<int>, his: seq<int>, ds: seq<int>, ds': seq<int>, sp: int)
    requires sp > 0 && DepthsHold(b, f, los, his, ds, sp - 1) && sp <= |ds|
    requires 0 <= ds[sp - 1] <= 14 && ds' == ds[sp - 1 := ds[sp - 1] + 1]
    requires DepthEqual(b, f, los[sp - 1], his[sp - 1], ds[sp - 1] + 1)
    ensures DepthsHold(b, f, los, his, ds', sp)
  {
    hide DepthEqual;
  }

  lemma DeeperOrder(b: Block, f0: seq<int>, f1: seq<int>, f2: seq<int>, owner: seq<int>, los: seq<int>, his: seq<int>,
      ds: seq<int>, sp: int, lo: int, hi: int)
    requires sp > 0 && SortState(b, f0, f1, owner, los, his, ds, sp, lo, hi)
    requires SamePart(f2, f1, los[sp - 1], his[sp - 1] + 1)
    ensures Ordered(Ranks(b), f2, owner, lo, hi)
  {
    hide SamePart, DepthEqual, Cmp, Thinning, DepthsHold;
    Rearranged(f2, f1, f0, los[sp - 1], his[sp - 1], lo, hi, |b|);
    SamePartOutside(f2, f1, los[sp - 1], his[sp - 1] + 1);
    Resettled(Ranks(b), f1, f2, owner, owner, sp - 1, los[sp - 1], his[sp - 1], lo, hi);
  }

  lemma MiddleDeeper(b: Block, f: seq<int>, lo: int, n: int, m: int, hi: int, med: int, d: nat)
    requires d < |b| && DepthEqual(b, f, lo, hi, d) && Split(DepthKey(b, d), f, lo, n, m, hi, med)
    ensures DepthEqual(b, f, n + 1, m - 1, d + 1)
    ensures DepthEqual(b, f, lo, n, d) && DepthEqual(b, f, m, hi, d)
  {
    forall p, q | n + 1 <= p <= m - 1 && n + 1 <= q <= m - 1 ensures Cmp(b, f[p], f[q], d + 1) == 0 {
      CmpSplit(b, f[p], f[q], d, 1);
    }
  }

  // ---- splitting into three ----

  /** Owners after a split: each part belongs to the entry it was pushed to. */
  ghost function Divided3(owner: seq<int>, a: int, n: int, m: int, c: int, kl: int, kr: int, km: int): (o: seq<int>)
    ensures |o| == |owner|
  {
    seq(|owner|, p requires 0 <= p < |owner| =>
      if a <= p <= n then kl else if m <= p <= c then kr else if a <= p <= c then km else owner[p])
  }

  ghost function OwnersAfter(owner: seq<int>, a: int, n: int, m: int, c: int, d: int, k: int,
      r: (Piece, Piece, Piece)): (o: seq<int>)
    ensures |o| == |owner|
  {
    Divided3(owner, a, n, m, c, k + SlotOf(Piece(a, n, d), r), k + SlotOf(Piece(m, c, d), r),
             k + SlotOf(Piece(n + 1, m - 1, d + 1), r))
  }

  /** Stack contents after pushing three pieces from slot k on. */
  ghost predicate Pushed(los: seq<int>, his: seq<int>, ds: seq<int>, los': seq<int>, his': seq<int>, ds': seq<int>,
      k: int, r: (Piece, Piece, Piece))
  {
    && |los'| == |his'| == |ds'| == |los| == |his| == |ds| && 0 <= k && k + 3 <= |los|
    && (forall j :: 0 <= j < k ==> los'[j] == los[j] && his'[j] == his[j] && ds'[j] == ds[j])
    && los'[k] == r.0.lo && his'[k] == r.0.hi && ds'[k] == r.0.d
    && los'[k + 1] == r.1.lo && his'[k + 1] == r.1.hi && ds'[k + 1] == r.1.d
    && los'[k + 2] == r.2.lo && his'[k + 2] == r.2.hi && ds'[k + 2] == r.2.d
  }

  /** r lists the left, right and middle pieces in some order. */
  ghost predicate ThreePieces(a: int, n: int, m: int, c: int, d: int, r: (Piece, Piece, Piece)) {
    var x, y, z := Piece(a, n, d), Piece(m, c, d), Piece(n + 1, m - 1, d + 1);
    r in {(x, y, z), (x, z, y), (y, x, z), (y, z, x), (z, x, y), (z, y, x)}
  }

  /** The three pieces lie where the divided one lay. */
  lemma Divided3Ranges(owner: seq<int>, los: seq<int>, his: seq<int>, ds: seq<int>, los': seq<int>, his': seq<int>,
      ds': seq<int>, k: int, lo: int, hi: int, n: int, m: int, d: int, r: (Piece, Piece, Piece))
    requires Owned(owner, los, his, k + 1, lo, hi) && Pushed(los, his, ds, los', his', ds', k, r)
    requires los[k] <= n + 1 < m <= his[k] + 1
    requires ThreePieces(los[k], n, m, his[k], d, r)
    ensures forall j :: 0 <= j < k + 3 ==> lo <= los'[j] <= his'[j] + 1 <= hi + 1
  {
    forall j | 0 <= j < k + 3 ensures lo <= los'[j] <= his'[j] + 1 <= hi + 1 {
      if j < k { assert los[j] <= his[j] + 1; }
    }
  }

  lemma Divided3Owned(owner: seq<int>, los: seq<int>, his: seq<int>, ds: seq<int>, los': seq<int>, his': seq<int>,
      ds': seq<int>, k: int, lo: int, hi: int, n: int, m: int, d: int, r: (Piece, Piece, Piece))
    requires Owned(owner, los, his, k + 1, lo, hi) && Pushed(los, his, ds, los', his', ds', k, r)
    requires los[k] <= n + 1 < m <= his[k] + 1
    requires ThreePieces(los[k], n, m, his[k], d, r)
    ensures Owned(OwnersAfter(owner, los[k], n, m, his[k], d, k, r), los', his', k + 3, lo, hi)
  {
    var o := OwnersAfter(owner, los[k], n, m, his[k], d, k, r);
    var x, y, z := Piece(los[k], n, d), Piece(m, his[k], d), Piece(n + 1, m - 1, d + 1);
    assert x != y && x != z && y != z;
    Divided3Ranges(owner, los, his, ds, los', his', ds', k, lo, hi, n, m, d, r);
    forall j, p | 0 <= j < k + 3 && los'[j] <= p <= his'[j] ensures o[p] == j {
      if j < k { assert los[j] <= p <= his[j] && owner[p] == j; }
    }
    forall p | lo <= p <= hi && o[p] >= 0 ensures o[p] < k + 3 && los'[o[p]] <= p <= his'[o[p]] {
      if !(los[k] <= p <= his[k]) { assert o[p] == owner[p] && owner[p] != k; }
    }
  }

  /** Different bytes at depth d after d equal ones decide the rank. */
  lemma DepthDecides(b: Block, x: nat, y: nat, d: nat)
    requires x < |b| && y < |b| && d < |b| && Cmp(b, x, y, d) == 0
    requires DepthKey(b, d)[x] < DepthKey(b, d)[y]
    ensures Ranks(b)[x] <= Ranks(b)[y]
  {
    Decided(b, x, y, d);
    RankOrder(b, x, y);
  }

  lemma Divided3Ordered(b: Block, f1: seq<int>, f2: seq<int>, owner: seq<int>, los: seq<int>, his: seq<int>, k: int,
      lo: int, hi: int,
                        n: int, m: int, d: int, med: int, r: (Piece, Piece, Piece))
    requires Ordered(Ranks(b), f1, owner, lo, hi) && Owned(owner, los, his, k + 1, lo, hi) && 0 <= k
    requires SamePart(f2, f1, los[k], his[k] + 1)
    requires 0 <= d < |b| && DepthEqual(b, f2, los[k], his[k], d)
             && Split(DepthKey(b, d), f2, los[k], n, m, his[k], med)
    ensures Ordered(Ranks(b), f2, OwnersAfter(owner, los[k], n, m, his[k], d, k, r), lo, hi)
  {
    hide SamePart;
    SamePartOutside(f2, f1, los[k], his[k] + 1);
    var o := OwnersAfter(owner, los[k], n, m, his[k], d, k, r);
    forall p, q | los[k] <= p < q <= his[k] ensures (o[p] == o[q] && 0 <= o[p]) || Ranks(b)[f2[p]] <= Ranks(b)[f2[q]] {
      if (p <= n && n < q) || (n < p < m && m <= q) {
        DepthDecides(b, f2[p], f2[q], d);
      } else {
        assert o[p] == o[q];
      }
    }
    Resettled(Ranks(b), f1, f2, owner, o, k, los[k], his[k], lo, hi);
  }

  lemma ThinningPush(los: seq<int>, his: seq<int>, ds: seq<int>, los': seq<int>, his': seq<int>, ds': seq<int>, k: int,
      size: nat, r: (Piece, Piece, Piece))
    requires Thinning(los, his, k + 1, size) && Pushed(los, his, ds, los', his', ds', k, r)
    requires -1 <= Width(r.2) <= Width(r.1) <= Width(r.0) && Width(r.0) + Width(r.1) + Width(r.2) == his[k] - los[k] - 2
    ensures Thinning(los', his', k + 3, size)
  {
    hide Pow2;
    var z := his[k] - los[k] + 1;
    ThinStep(z, Width(r.0) + 1, k, k, size);
    ThinStep(z, Width(r.1) + 1, k, k + 1, size);
    ThinStep(z, Width(r.2) + 1, k, k + 2, size);
  }

  /** At most half the size: up to two entries higher on the stack is allowed. */
  lemma ThinStep(z: int, s: int, k: nat, j: nat, size: nat)
    requires z * Pow2(k / 2) <= size && 0 <= s <= z && k <= j <= k + 2
    requires j > k ==> 2 * s <= z
    ensures s * Pow2(j / 2) <= size
  {
    var q := Pow2(k / 2);
    if j / 2 == k / 2 {
      MulMono(s, z, q);
    } else {
      assert Pow2(j / 2) == 2 * q;
      MulMono(2 * s, z, q);
      assert s * (2 * q) == 2 * s * q;
    }
  }

  lemma DepthsPush(b: Block, f: seq<int>, los: seq<int>, his: seq<int>, ds: seq<int>, los': seq<int>, his': seq<int>,
      ds': seq<int>, k: int,
                   n: int, m: int, d: int, med: int, r: (Piece, Piece, Piece))
    requires DepthsHold(b, f, los, his, ds, k) && Pushed(los, his, ds, los', his', ds', k, r)
    requires 0 <= d <= 14 && d < |b| && DepthEqual(b, f, los[k], his[k], d)
             && Split(DepthKey(b, d), f, los[k], n, m, his[k], med)
    requires ThreePieces(los[k], n, m, his[k], d, r)
    ensures DepthsHold(b, f, los', his', ds', k + 3)
  {
    MiddleDeeper(b, f, los[k], n, m, his[k], med, d);
    hide DepthEqual, Split;
  }

  lemma WorkPush(los: seq<int>, his: seq<int>, ds: seq<int>, los': seq<int>, his': seq<int>, ds': seq<int>, k: int,
      n: int, m: int, d: int, r: (Piece, Piece, Piece))
    requires Pushed(los, his, ds, los', his', ds', k, r) && ds[k] == d
    requires los[k] <= n + 1 < m <= his[k] + 1
    requires ThreePieces(los[k], n, m, his[k], d, r)
    ensures Work(los', his', ds', k + 3) < Work(los, his, ds, k + 1)
  {
    hide EntryWork;
    WorkPrefix(los, his, ds, los', his', ds', k);
    assert Work(los', his', ds', k + 1) == Work(los', his', ds', k) + EntryWork(r.0.lo, r.0.hi, r.0.d);
    assert Work(los', his', ds', k + 2) == Work(los', his', ds', k + 1) + EntryWork(r.1.lo, r.1.hi, r.1.d);
    PieceWork(los[k], n, m, his[k], d, r);
  }

  lemma PieceWork(a: int, n: int, m: int, c: int, d: int, r: (Piece, Piece, Piece))
    requires ThreePieces(a, n, m, c, d, r) && n + 1 < m
    ensures EntryWork(r.0.lo, r.0.hi, r.0.d) + EntryWork(r.1.lo, r.1.hi, r.1.d)
            + EntryWork(r.2.lo, r.2.hi, r.2.d) < EntryWork(a, c, d)
  {
    hide EntryWork;
    PieceSum(a, n, m, c, d);
  }

  lemma PieceSum(a: int, n: int, m: int, c: int, d: int)
    requires n + 1 < m
    ensures EntryWork(a, n, d) + EntryWork(m, c, d) + EntryWork(n + 1, m - 1, d + 1) < EntryWork(a, c, d)
  {
    var u, v, w := n - a + 1, c - m + 1, m - 1 - n;
    var t := 3 * (16 - d);
    assert t * (u + v + w) == t * u + t * v + t * w;
    assert (t - 3) * w == t * w - 3 * w;
  }

  /** Popping a segment, splitting it in three, and pushing the parts, largest first. */
  lemma DivideStep(b: Block, f0: seq<int>, f1: seq<int>, f2: seq<int>, owner: seq<int>, los: seq<int>, his: seq<int>,
      ds: seq<int>,
                   los': seq<int>, his': seq<int>, ds': seq<int>, sp: int, lo: int, hi: int, n: int, m: int, med: int,
                     r: (Piece, Piece, Piece))
    requires 0 < sp <= 62 && SortState(b, f0, f1, owner, los, his, ds, sp, lo, hi) && |b| > N_OVERSHOOT
    requires SamePart(f2, f1, los[sp - 1], his[sp - 1] + 1)
    requires 0 <= ds[sp - 1] <= 14 && Split(DepthKey(b, ds[sp - 1]), f2, los[sp - 1], n, m, his[sp - 1], med)
    requires n + 1 < m
    requires Pushed(los, his, ds, los', his', ds', sp - 1, r)
    requires r == BySize(Piece(los[sp - 1], n, ds[sp - 1]), Piece(m, his[sp - 1], ds[sp - 1]),
                         Piece(n + 1, m - 1, ds[sp - 1] + 1))
    ensures SortState(b, f0, f2, OwnersAfter(owner, los[sp - 1], n, m, his[sp - 1], ds[sp - 1], sp - 1, r), los', his',
                      ds', sp + 2, lo, hi)
    ensures Work(los', his', ds', sp + 2) < Work(los, his, ds, sp)
  {
    hide SamePart, Ordered, Owned, Thinning, DepthsHold, Split, Ranks, Cmp, DepthEqual, OwnersAfter, Work, Pushed,
      DepthKey;
    ghost var d := ds[sp - 1];
    StackTop(b, f0, f1, owner, los, his, ds, sp, lo, hi);
    Step1(b, f0, f1, f2, owner, los, his, ds, sp, lo, hi);
    SplitBounds(DepthKey(b, d), f2, los[sp - 1], n, m, his[sp - 1], med);
    Divided3Ordered(b, f1, f2, owner, los, his, sp - 1, lo, hi, n, m, d, med, r);
    Divided3Owned(owner, los, his, ds, los', his', ds', sp - 1, lo, hi, n, m, d, r);
    ThinningPush(los, his, ds, los', his', ds', sp - 1, hi - lo + 1, r);
    DepthsPush(b, f2, los, his, ds, los', his', ds', sp - 1, n, m, d, med, r);
    WorkPush(los, his, ds, los', his', ds', sp - 1, n, m, d, r);
    PushedSizes(los, his, ds, los', his', ds', sp - 1, r);
  }

  lemma PushedSizes(los: seq<int>, his: seq<int>, ds: seq<int>, los': seq<int>, his': seq<int>, ds': seq<int>, k: int,
      r: (Piece, Piece, Piece))
    requires Pushed(los, his, ds, los', his', ds', k, r)
    ensures |los'| == |his'| == |ds'| == |los|
  {
  }

  lemma AllSettled(b: Block, f0: seq<int>, f: seq<int>, owner: seq<int>, los: seq<int>, his: seq<int>, ds: seq<int>,
      lo: int, hi: int)
    requires SortState(b, f0, f, owner, los, his, ds, 0, lo, hi)
    ensures SamePart(f, f0, lo, hi + 1) && KeySorted(Ranks(b), f, lo, hi + 1)
  {
    hide SamePart;
  }

  lemma SoFar(b: Block, f0: seq<int>, f: seq<int>, owner: seq<int>, los: seq<int>, his: seq<int>, ds: seq<int>, sp: int,
      lo: int, hi: int, f2: seq<int>)
    requires sp > 0 && SortState(b, f0, f, owner, los, his, ds, sp, lo, hi)
    requires SamePart(f2, f, los[sp - 1], his[sp - 1] + 1)
    ensures SamePart(f2, f0, lo, hi + 1)
  {
    Step1(b, f0, f, f2, owner, los, his, ds, sp, lo, hi);
  }

  lemma MedInMiddle(b: Block, f1: seq<int>, f2: seq<int>, lo: int, n: int, m: int, hi: int, d: nat, med: int, p: int)
    requires d <= |b| && SamePart(f2, f1, lo, hi + 1) && Split(DepthKey(b, d), f2, lo, n, m, hi, med)
    requires lo <= p <= hi && 0 <= f1[p] < |b| && DepthKey(b, d)[f1[p]] == med
    ensures n + 1 < m
  {
    var q := SamePartOrigin(f1, f2, lo, hi + 1, p);
  }

  method PushThree(stackLo: array<int>, stackHi: array<int>, stackD: array<int>, sp: int, r: (Piece, Piece, Piece))
    requires stackLo != stackHi && stackLo != stackD && stackHi != stackD
    requires 0 <= sp && sp + 3 <= stackLo.Length == stackHi.Length == stackD.Length
    modifies stackLo, stackHi, stackD
    ensures Pushed(old(stackLo[..]), old(stackHi[..]), old(stackD[..]), stackLo[..], stackHi[..], stackD[..], sp, r)
  {
    stackLo[sp], stackHi[sp], stackD[sp] := r.0.lo, r.0.hi, r.0.d;
    stackLo[sp + 1], stackHi[sp + 1], stackD[sp + 1] := r.1.lo, r.1.hi, r.1.d;
    stackLo[sp + 2], stackHi[sp + 2], stackD[sp + 2] := r.2.lo, r.2.hi, r.2.d;
  }

  /** The pivot byte: the median of the first, last and middle rotations' bytes. */
  method ChooseMed(ptr: array<int>, block: array<Byte>, lo: int, hi: int, d: int, ghost b: Block)
    returns (med: int, ghost p: int)
    requires Overshot(b, block[..]) && 0 <= d <= 15
    requires 0 <= lo <= hi < ptr.Length && Indexes(ptr[..], lo, hi + 1, |b|)
    ensures lo <= p <= hi && 0 <= ptr[p] < |b| && med == DepthKey(b, d)[ptr[p]]
  {
    assert forall q :: lo <= q <= hi ==> 0 <= ptr[..][q] < |b|;
    var x := ByteAt(ptr, block, lo, d, b);
    var y := ByteAt(ptr, block, hi, d, b);
    var z := ByteAt(ptr, block, (lo + hi) / 2, d, b);
    med := Med3(x, y, z);
    p := if med == x then lo else if med == y then hi else (lo + hi) / 2;
  }

  /** Splits the segment just popped from entry sp and pushes what must still be sorted. */
  method SplitSegment(ptr: array<int>, block: array<Byte>, stackLo: array<int>, stackHi: array<int>, stackD: array<int>,
      sp: int,
      ghost f0: seq<int>, ghost owner: seq<int>, ghost loSt: int, ghost hiSt: int, ghost b: Block)
    returns (sp': int, ghost owner': seq<int>)
    requires ptr as object != block && ptr !in {stackLo, stackHi, stackD}
             && block as object !in {stackLo, stackHi, stackD}
    requires stackLo != stackHi && stackLo != stackD && stackHi != stackD
    requires stackLo.Length == stackHi.Length == stackD.Length == STACK_SIZE && 0 <= sp < 65
    requires Overshot(b, block[..]) && |b| < 0x8000_0000 && ptr.Length == |b|
    requires SortState(b, f0, ptr[..], owner, stackLo[..], stackHi[..], stackD[..], sp + 1, loSt, hiSt)
    requires stackHi[sp] - stackLo[sp] >= SMALL_THRESH && stackD[sp] <= DEPTH_THRESH
    modifies ptr, stackLo, stackHi, stackD
    ensures 0 <= sp' <= 65
    ensures SortState(b, f0, ptr[..], owner', stackLo[..], stackHi[..], stackD[..], sp', loSt, hiSt)
    ensures Work(stackLo[..], stackHi[..], stackD[..], sp') < old(Work(stackLo[..], stackHi[..], stackD[..], sp + 1))
  {
    hide SamePart, Ranks, Overshot, SortState, Work, Split, DepthEqual, DepthKey, Pushed, OwnersAfter, BySize, Cmp;
    OvershotSize(b, block[..]);
    ghost var los, his, ds, f1 := stackLo[..], stackHi[..], stackD[..], ptr[..];
    StackTop(b, f0, f1, owner, los, his, ds, sp + 1, loSt, hiSt);
    var lo, hi, d := stackLo[sp], stackHi[sp], stackD[sp];
    SortStateRange(b, f0, f1, owner, los, his, ds, sp + 1, loSt, hiSt);
    var med, p := ChooseMed(ptr, block, lo, hi, d, b);
    var allEqual, n, m := Partition(ptr, block, d, lo, hi, med, b);
    if allEqual {
      stackD[sp] := d + 1;
      DeeperStep(b, f0, f1, ptr[..], owner, los, his, ds, stackD[..], sp + 1, loSt, hiSt, med);
      return sp + 1, owner;
    }
    var r := BySize(Piece(lo, n, d), Piece(m, hi, d), Piece(n + 1, m - 1, d + 1));
    PushThree(stackLo, stackHi, stackD, sp, r);
    MedInMiddle(b, f1, ptr[..], lo, n, m, hi, d, med, p);
    DivideStep(b, f0, f1, ptr[..], owner, los, his, ds, stackLo[..], stackHi[..], stackD[..], sp + 1, loSt, hiSt, n, m,
               med, r);
    owner' := OwnersAfter(owner, lo, n, m, hi, d, sp, r);
    sp' := sp + 3;
  }

  lemma SortStateRange(b: Block, f0: seq<int>, f: seq<int>, owner: seq<int>, los: seq<int>, his: seq<int>, ds: seq<int>,
      sp: int, lo: int, hi: int)
    requires SortState(b, f0, f, owner, los, his, ds, sp, lo, hi)
    ensures 0 <= lo <= hi < |f|
  {
  }

  lemma EntryApart(b: Block, f0: seq<int>, f: seq<int>, owner: seq<int>, los: seq<int>, his: seq<int>, ds: seq<int>,
      sp: int, lo: int, hi: int)
    requires sp > 0 && SortState(b, f0, f, owner, los, his, ds, sp, lo, hi)
    requires lo <= los[sp - 1] <= his[sp - 1] + 1 <= hi + 1
    ensures Apart(f0, lo, hi + 1) ==> Apart(f, los[sp - 1], his[sp - 1] + 1)
  {
    hide SamePart, Ordered, Owned, DepthsHold, Thinning, Apart;
    StillApart(f, f0, lo, hi + 1, los[sp - 1], his[sp - 1] + 1);
  }

  /** Sorts ptr[loSt..hiSt], whose rotations agree on dSt bytes, unless the budget
      runs out; the stack never comes near its 100 entries. */
  method MainQSort3(ptr: array<int>, block: array<Byte>, quadrant: array<int>, nblock: int, loSt: int, hiSt: int,
      dSt: int, budget: int, ghost b: Block)
    returns (budget': int)
    requires ptr != quadrant && ptr as object != block && ptr.Length == nblock < 2391484
    requires Setting(b, block[..], quadrant[..], nblock)
    requires 0 <= loSt <= hiSt < nblock && 0 <= dSt <= 15
    requires DepthEqual(b, ptr[..], loSt, hiSt, dSt)
    modifies ptr
    ensures SamePart(ptr[..], old(ptr[..]), loSt, hiSt + 1)
    ensures budget' >= 0 ==> KeySorted(Ranks(b), ptr[..], loSt, hiSt + 1)
    ensures budget' <= budget && (Plain(b) && Apart(old(ptr[..]), loSt, hiSt + 1) ==> budget' == budget)
  {
    hide SamePart, KeySorted, Ranks, Overshot, QuadrantsMean, SortState, Work, Split, DepthEqual, DepthKey, Pushed,
      OwnersAfter, Released, BySize, Cmp, Plain, Apart;
    budget' := budget;
    OvershotSize(b, block[..]);
    var stackLo, stackHi, stackD := new int[STACK_SIZE], new int[STACK_SIZE], new int[STACK_SIZE];
    stackLo[0], stackHi[0], stackD[0] := loSt, hiSt, dSt;
    var sp := 1;
    ghost var f0 := ptr[..];
    ghost var owner := seq(ptr.Length, _ => 0);
    ghost var noWork := Work(stackLo[..], stackHi[..], stackD[..], 0);
    StackStart(b, f0, owner, stackLo[..], stackHi[..], stackD[..], loSt, hiSt);
    while sp > 0
      invariant 0 <= sp <= 65
      invariant SortState(b, f0, ptr[..], owner, stackLo[..], stackHi[..], stackD[..], sp, loSt, hiSt)
      invariant Setting(b, block[..], quadrant[..], nblock)
      invariant budget' <= budget && (Plain(b) && Apart(f0, loSt, hiSt + 1) ==> budget' == budget)
      decreases Work(stackLo[..], stackHi[..], stackD[..], sp)
    {
      assert sp < STACK_SIZE - 2;  // error 1001 cannot happen
      ghost var los, his, ds, f1 := stackLo[..], stackHi[..], stackD[..], ptr[..];
      StackTop(b, f0, f1, owner, los, his, ds, sp, loSt, hiSt);
      sp := sp - 1;
      var lo, hi, d := stackLo[sp], stackHi[sp], stackD[sp];
      if hi - lo < SMALL_THRESH || d > DEPTH_THRESH {
        EntryApart(b, f0, f1, owner, los, his, ds, sp + 1, loSt, hiSt);
        budget' := MainSimpleSort(ptr, block, quadrant, nblock, lo, hi, d, budget', b);
        if budget' < 0 {
          SoFar(b, f0, f1, owner, los, his, ds, sp + 1, loSt, hiSt, ptr[..]);
          return;
        }
        ReleaseStep(b, f0, f1, ptr[..], owner, los, his, ds, sp + 1, loSt, hiSt);
        owner := Released(owner, lo, hi);
        continue;
      }
      sp, owner := SplitSegment(ptr, block, stackLo, stackHi, stackD, sp, f0, owner, loSt, hiSt, b);
    }
    AllSettled(b, f0, ptr[..], owner, stackLo[..], stackHi[..], stackD[..], loSt, hiSt);
  }
}
