/** The main block sorter: radix sort by two bytes, then one big bucket at a time,
    smallest first, each sorted directly where it must be and by scanning where it can. */
module MainSort {
  import opened Bits
  import opened Rotations
  import opened Segments
  import opened Permutations
  import opened Radix
  import opened RotationRank
  import opened MainCompare
  import opened MainShellSort
  import opened MainQuickSort
  import opened ScanOrder
  import opened MainScan
  import opened MainSynthesis
  import opened MainScanLoops
  import opened MainRadix
  import opened RunningOrder

  /** Bit 21 of a table entry flags a sorted small bucket. */
  const SETMASK := 0x20_0000

  predicate IsSet(w: int) { w / SETMASK % 2 == 1 }

  function Cleared(w: int): int { if IsSet(w) then w - SETMASK else w }

  function WithSet(w: int): int { if IsSet(w) then w else w + SETMASK }

  lemma SetFacts(w: int)
    ensures IsSet(WithSet(w)) && Cleared(WithSet(w)) == Cleared(w)
  {
    assert (w + SETMASK) / SETMASK == w / SETMASK + 1;
  }

  /** Each entry is where its small bucket starts, and only sorted ones are flagged. */
  ghost predicate Table(b: Block, f: seq<int>, tab: seq<int>) {
    && |tab| == 65537
    && (forall v :: 0 <= v <= 65536 ==> Cleared(tab[v]) == Start(b, v))
    && (forall c, d :: 0 <= c < 256 && 0 <= d < 256 && IsSet(tab[PairKey(c, d)]) ==> SmallSorted(b, f, c, d))
  }

  /** Every small bucket of a finished big bucket is flagged. */
  ghost predicate RowsDone(tab: seq<int>, done: seq<bool>) {
    && |tab| == 65537 && |done| == 256
    && (forall c, d :: 0 <= c < 256 && 0 <= d < 256 && done[c] ==> IsSet(tab[PairKey(c, d)]))
  }

  ghost predicate StillSet(tab: seq<int>, tab0: seq<int>) {
    |tab| == |tab0| == 65537 && forall v :: 0 <= v <= 65536 && IsSet(tab0[v]) ==> IsSet(tab[v])
  }

  lemma StillSetTrans(t2: seq<int>, t1: seq<int>, t0: seq<int>)
    requires StillSet(t2, t1) && StillSet(t1, t0)
    ensures StillSet(t2, t0)
  {
  }

  lemma StillRows(t1: seq<int>, t0: seq<int>, done: seq<bool>)
    requires StillSet(t1, t0) && RowsDone(t0, done)
    ensures RowsDone(t1, done)
  {
  }

  lemma TableSize(b: Block, f: seq<int>, tab: seq<int>)
    requires Table(b, f, tab)
    ensures |tab| == 65537
    ensures forall v :: 0 <= v <= 65536 ==> Cleared(tab[v]) == Start(b, v)
  {
  }

  // ---- step 1: the small buckets [ss, j] of one big bucket ----

  lemma SmallBucketEqual(b: Block, f: seq<int>, c: int, d: int)
    requires Buckets(b, f) && 0 <= c < 256 && 0 <= d < 256 && |b| > 2
    ensures DepthEqual(b, f, Start(b, PairKey(c, d)), Start(b, PairKey(c, d) + 1) - 1, 2)
  {
    var lo, hi := Start(b, PairKey(c, d)), Start(b, PairKey(c, d) + 1) - 1;
    StartMono(b, PairKey(c, d), PairKey(c, d) + 1);
    hide Start, Buckets, Inside;
    BucketsRange(b, f);
    forall p, q | lo <= p <= hi && lo <= q <= hi ensures 0 <= f[p] < |b| && 0 <= f[q] < |b|
      && Cmp(b, f[p], f[q], 2) == 0 {
      Here(b, c, d, p);
      Here(b, c, d, q);
      InsideKey(b, f, c, d, p);
      InsideKey(b, f, c, d, q);
      SameTwo(b, f[p], f[q]);
    }
  }

  lemma Here(b: Block, c: int, d: int, p: int)
    requires Start(b, PairKey(c, d)) <= p < Start(b, PairKey(c, d) + 1)
    ensures Inside(b, c, d, p)
  {
  }

  lemma SameTwo(b: Block, x: int, y: int)
    requires 0 <= x < |b| && 0 <= y < |b| && b[x] == b[y] && b[Step(|b|, x)] == b[Step(|b|, y)]
    ensures Cmp(b, x, y, 2) == 0
  {
  }

  lemma BucketKeeps(b: Block, f: seq<int>, f0: seq<int>, v: int, w: int, p: int)
    requires Buckets(b, f0) && 0 <= v < 65536 && 0 <= w < 65536
    requires SamePart(f, f0, Start(b, v), Start(b, v + 1)) && Start(b, w) <= p < Start(b, w + 1)
    ensures 0 <= p < |f| && 0 <= f[p] < |b| && PairKeys(b)[f[p]] == w
  {
    hide IsPerm;
    if Start(b, v) <= p < Start(b, v + 1) {
      SameBucket(b, v, w, p);
      var q := SamePartOrigin(f, f0, Start(b, v), Start(b, v + 1), p);
      assert PairKeys(b)[f0[q]] == v;
    } else {
      assert PairKeys(b)[f0[p]] == w;
    }
  }

  lemma BucketOthers(b: Block, f: seq<int>, f0: seq<int>, v: int, c: int, d: int)
    requires SamePart(f, f0, Start(b, v), Start(b, v + 1)) && v != PairKey(c, d) && SmallSorted(b, f0, c, d)
    ensures SmallSorted(b, f, c, d)
  {
    hide Ranks, PairKey, Start;
    SamePartOutside(f, f0, Start(b, v), Start(b, v + 1));
    hide SamePart;
    var w := PairKey(c, d);
    forall p | Start(b, w) <= p < Start(b, w + 1) ensures 0 <= p < |f| && f[p] == f0[p] {
      if Start(b, v) <= p < Start(b, v + 1) { SameBucket(b, v, w, p); }
    }
  }

  /** Rearranging within one small bucket. */
  lemma BucketRearranged(b: Block, f: seq<int>, f0: seq<int>, c: int, d: int)
    requires Buckets(b, f0) && 0 <= c < 256 && 0 <= d < 256
    requires SamePart(f, f0, Start(b, PairKey(c, d)), Start(b, PairKey(c, d) + 1))
    ensures Buckets(b, f)
    ensures forall c', d' :: 0 <= c' < 256 && 0 <= d' < 256 && (c' != c || d' != d) && SmallSorted(b, f0, c', d') ==>
                               SmallSorted(b, f, c', d')
  {
    hide Ranks, SmallSorted, SamePart;
    var v := PairKey(c, d);
    BucketPerm(b, f, f0, v);
    forall w, p | 0 <= w < 65536 && Below(PairKeys(b), w) <= p < Below(PairKeys(b), w + 1)
      ensures PairKeys(b)[f[p]] == w {
      BucketKeeps(b, f, f0, v, w, p);
    }
    forall c', d' | 0 <= c' < 256 && 0 <= d' < 256 && (c' != c || d' != d) && SmallSorted(b, f0, c', d')
      ensures SmallSorted(b, f, c', d') {
      BucketOthers(b, f, f0, v, c', d');
    }
  }

  lemma BucketPerm(b: Block, f: seq<int>, f0: seq<int>, v: int)
    requires Buckets(b, f0) && SamePart(f, f0, Start(b, v), Start(b, v + 1))
    ensures IsPerm(f, |b|)
  {
    PermPart(f, f0, Start(b, v), Start(b, v + 1), |b|);
  }

  lemma SameBucket(b: Block, v: int, w: int, p: int)
    requires Start(b, v) <= p < Start(b, v + 1) && Start(b, w) <= p < Start(b, w + 1)
    ensures v == w
  {
    if v < w { StartMono(b, v + 1, w); }
    if w < v { StartMono(b, w + 1, v); }
  }

  lemma Flagged(b: Block, f: seq<int>, f0: seq<int>, tab: seq<int>, c: int, d: int)
    requires Buckets(b, f0) && Table(b, f0, tab) && 0 <= c < 256 && 0 <= d < 256
    requires SamePart(f, f0, Start(b, PairKey(c, d)), Start(b, PairKey(c, d) + 1)) && SmallSorted(b, f, c, d)
    ensures Buckets(b, f)
    ensures 0 <= PairKey(c, d) < |tab| && Table(b, f, tab[PairKey(c, d) := WithSet(tab[PairKey(c, d)])])
    ensures StillSet(tab[PairKey(c, d) := WithSet(tab[PairKey(c, d)])], tab)
  {
    BucketRearranged(b, f, f0, c, d);
    var v := PairKey(c, d);
    SetFacts(tab[v]);
    hide Buckets, SamePart, SmallSorted, Start, IsSet, WithSet, Cleared;
    var tab' := tab[v := WithSet(tab[v])];
    forall c', d' | 0 <= c' < 256 && 0 <= d' < 256 && IsSet(tab'[PairKey(c', d')]) ensures SmallSorted(b, f, c', d') {
      if c' != c || d' != d {
        assert PairKey(c', d') != v;
      }
    }
  }

  lemma ShortSorted(b: Block, f: seq<int>, c: int, d: int)
    requires Buckets(b, f) && Start(b, PairKey(c, d) + 1) - 1 <= Start(b, PairKey(c, d)) && |b| > 0
    ensures SmallSorted(b, f, c, d)
    ensures SamePart(f, f, Start(b, PairKey(c, d)), Start(b, PairKey(c, d) + 1))
  {
    hide Ranks;
    StartMono(b, PairKey(c, d), PairKey(c, d) + 1);
    SamePartSelf(f, Start(b, PairKey(c, d)), Start(b, PairKey(c, d) + 1));
  }

  lemma FlaggedSorted(b: Block, f: seq<int>, tab: seq<int>, c: int, d: int)
    requires Table(b, f, tab) && 0 <= c < 256 && 0 <= d < 256 && IsSet(tab[PairKey(c, d)])
    ensures SmallSorted(b, f, c, d)
  {
  }

  lemma SmallEntry(b: Block, f: seq<int>, tab: seq<int>, c: int, d: int)
    requires Table(b, f, tab) && 0 <= c < 256 && 0 <= d < 256
    ensures |tab| == 65537 && PairKey(c, d) == c * 256 + d < 65536
    ensures Cleared(tab[c * 256 + d]) == Start(b, PairKey(c, d))
            && Cleared(tab[c * 256 + d + 1]) == Start(b, PairKey(c, d) + 1)
  {
    hide SmallSorted, Start, IsSet, Cleared;
  }

  /** Sorts small bucket [ss, j] if it is not flagged yet. */
  method SortSmall(ptr: array<int>, block: array<Byte>, quadrant: array<int>, ftab: array<int>, nblock: int, ss: int,
      j: int, budget: int, ghost b: Block)
    returns (budget': int)
    requires ptr != ftab && ptr != quadrant && quadrant != ftab && ptr as object != block && ftab as object != block
    requires ptr.Length == nblock < SETMASK && Setting(b, block[..], quadrant[..], nblock)
    requires 0 <= ss < 256 && 0 <= j < 256 && budget >= 0
    requires Buckets(b, ptr[..]) && Table(b, ptr[..], ftab[..])
    modifies ptr, ftab
    ensures Buckets(b, ptr[..]) && (budget' >= 0 ==> Table(b, ptr[..], ftab[..]))
    ensures budget' >= 0 ==> StillSet(ftab[..], old(ftab[..])) && IsSet(ftab[..][PairKey(ss, j)])
    ensures budget' <= budget && (Plain(b) ==> budget' == budget)
  {
    hide Plain, Apart, Buckets, Table, Setting, SamePart, SmallSorted, Start, IsSet, WithSet, Cleared, KeySorted, Ranks,
      DepthEqual, StillSet;
    ghost var f0, t0 := ptr[..], ftab[..];
    var sb := ss * 256 + j;
    SmallEntry(b, f0, t0, ss, j);
    budget' := budget;
    if !IsSet(ftab[sb]) {
      var lo, hi := Cleared(ftab[sb]), Cleared(ftab[sb + 1]) - 1;
      if hi > lo {
        SettingSize(b, block[..], quadrant[..], nblock);
        SmallBucketEqual(b, f0, ss, j);
        BucketsApart(b, f0, lo, hi + 1);
        budget' := MainQSort3(ptr, block, quadrant, nblock, lo, hi, N_RADIX, budget', b);
        BucketRearranged(b, ptr[..], f0, ss, j);
        if budget' < 0 { return; }
        Sorted(b, ptr[..], ss, j);
      } else {
        ShortSorted(b, f0, ss, j);
      }
      assert ftab[..] == t0;
    } else {
      FlaggedSorted(b, f0, t0, ss, j);
      SameSelf(b, f0, ss, j);
    }
    Flagged(b, ptr[..], f0, t0, ss, j);
    SetFacts(t0[sb]);
    ftab[sb] := WithSet(ftab[sb]);
    assert ftab[..] == t0[sb := WithSet(t0[sb])];
  }

  lemma BucketsApart(b: Block, f: seq<int>, lo: int, hi: int)
    requires Buckets(b, f) && 0 <= lo <= hi <= |f|
    ensures Apart(f, lo, hi)
  {
  }

  lemma SettingSize(b: Block, block: seq<Byte>, quadrant: seq<int>, nblock: int)
    requires Setting(b, block, quadrant, nblock)
    ensures nblock == |b| > N_OVERSHOOT
  {
  }

  lemma Sorted(b: Block, f: seq<int>, c: int, d: int)
    requires KeySorted(Ranks(b), f, Start(b, PairKey(c, d)), Start(b, PairKey(c, d) + 1))
    ensures SmallSorted(b, f, c, d)
  {
  }

  lemma SameSelf(b: Block, f: seq<int>, c: int, d: int)
    requires Buckets(b, f)
    ensures SamePart(f, f, Start(b, PairKey(c, d)), Start(b, PairKey(c, d) + 1))
  {
    StartMono(b, PairKey(c, d), PairKey(c, d) + 1);
    SamePartSelf(f, Start(b, PairKey(c, d)), Start(b, PairKey(c, d) + 1));
  }

  /** Step 1: quicksort completes big bucket ss, except for [ss, ss]. */
  method SortOwn(ptr: array<int>, block: array<Byte>, quadrant: array<int>, ftab: array<int>, nblock: int, ss: int,
      budget: int, ghost b: Block)
    returns (budget': int)
    requires ptr != ftab && ptr != quadrant && quadrant != ftab && ptr as object != block && ftab as object != block
    requires ptr.Length == nblock < SETMASK && Setting(b, block[..], quadrant[..], nblock)
    requires 0 <= ss < 256 && budget >= 0
    requires Buckets(b, ptr[..]) && Table(b, ptr[..], ftab[..])
    modifies ptr, ftab
    ensures Buckets(b, ptr[..])
    ensures budget' >= 0 ==> Table(b, ptr[..], ftab[..]) && StillSet(ftab[..], old(ftab[..]))
    ensures budget' >= 0 ==> OwnSet(ftab[..], ss, 256)
    ensures budget' <= budget && (Plain(b) ==> budget' == budget)
  {
    hide Buckets, Table, Setting, StillSet, OwnSet, Plain;
    ghost var t0 := ftab[..];
    budget' := budget;
    OwnStart(b, ptr[..], t0, ss);
    for j := 0 to 256
      invariant budget' >= 0 && Setting(b, block[..], quadrant[..], nblock)
      invariant Buckets(b, ptr[..]) && Table(b, ptr[..], ftab[..])
      invariant StillSet(ftab[..], t0) && OwnSet(ftab[..], ss, j)
      invariant budget' <= budget && (Plain(b) ==> budget' == budget)
    {
      ghost var t1 := ftab[..];
      if j != ss {
        budget' := SortSmall(ptr, block, quadrant, ftab, nblock, ss, j, budget', b);
        if budget' < 0 { return; }
        StillSetTrans(ftab[..], t1, t0);
        OwnNext(ftab[..], t1, ss, j);
      } else {
        OwnSkip(t1, ss);
      }
    }
  }

  /** The small buckets [ss, d] with d < n are flagged, [ss, ss] aside. */
  ghost predicate OwnSet(tab: seq<int>, ss: int, n: int) {
    |tab| == 65537 && 0 <= ss < 256 && 0 <= n <= 256 && forall d :: 0 <= d < n && d != ss ==> IsSet(tab[PairKey(ss, d)])
  }

  lemma OwnStart(b: Block, f: seq<int>, tab: seq<int>, ss: int)
    requires Table(b, f, tab) && 0 <= ss < 256
    ensures OwnSet(tab, ss, 0) && StillSet(tab, tab)
  {
  }

  lemma OwnNext(t1: seq<int>, t0: seq<int>, ss: int, j: int)
    requires StillSet(t1, t0) && OwnSet(t0, ss, j) && 0 <= j < 256 && IsSet(t1[PairKey(ss, j)])
    ensures OwnSet(t1, ss, j + 1)
  {
  }

  lemma OwnSkip(tab: seq<int>, ss: int)
    requires OwnSet(tab, ss, ss)
    ensures OwnSet(tab, ss, ss + 1)
  {
  }

  // ---- step 2: the small buckets [j, ss] of every big bucket ----

  /** The column [j, ss] for j < n is flagged; the rest of the table is as before. */
  ghost predicate ColumnSet(tab: seq<int>, tab0: seq<int>, ss: int, n: int) {
    && |tab| == |tab0| == 65537 && 0 <= ss < 256 && 0 <= n <= 256
    && (forall v :: 0 <= v <= 65536 ==> Cleared(tab[v]) == Cleared(tab0[v]))
    && StillSet(tab, tab0)
    && (forall c :: 0 <= c < n ==> IsSet(tab[PairKey(c, ss)]))
    && (forall c, d :: 0 <= c < 256 && 0 <= d < 256 && d != ss && IsSet(tab[PairKey(c, d)]) ==>
                         IsSet(tab0[PairKey(c, d)]))
  }

  lemma ColumnNext(tab: seq<int>, tab0: seq<int>, ss: int, n: int)
    requires ColumnSet(tab, tab0, ss, n) && n < 256
    ensures 0 <= PairKey(n, ss) < 65537 && ColumnSet(tab[PairKey(n, ss) := WithSet(tab[PairKey(n, ss)])], tab0, ss,
                                                     n + 1)
  {
    var v := PairKey(n, ss);
    SetFacts(tab[v]);
    hide IsSet, WithSet, Cleared;
    var t := tab[v := WithSet(tab[v])];
    forall c, d | 0 <= c < 256 && 0 <= d < 256 && d != ss && IsSet(t[PairKey(c, d)])
      ensures IsSet(tab0[PairKey(c, d)]) {
      assert PairKey(c, d) != v;
    }
  }

  method FlagColumn(ftab: array<int>, ss: int)
    requires ftab.Length == 65537 && 0 <= ss < 256
    modifies ftab
    ensures ColumnSet(ftab[..], old(ftab[..]), ss, 256)
  {
    ghost var t0 := ftab[..];
    hide IsSet, Cleared, WithSet;
    assert ColumnSet(t0, t0, ss, 0);
    for j := 0 to 256
      invariant ColumnSet(ftab[..], t0, ss, j)
    {
      ghost var t1 := ftab[..];
      ColumnNext(t1, t0, ss, j);
      ftab[j * 256 + ss] := WithSet(ftab[j * 256 + ss]);
      assert ftab[..] == t1[PairKey(j, ss) := WithSet(t1[PairKey(j, ss)])];
    }
  }

  /** What the whole sort keeps between big buckets. */
  ghost predicate Progress(b: Block, f: seq<int>, tab: seq<int>, done: seq<bool>) {
    Buckets(b, f) && Table(b, f, tab) && RowsDone(tab, done)
  }

  lemma ScannedProgress(b: Block, ss: Byte, done: seq<bool>, f0: seq<int>, f: seq<int>, t0: seq<int>, tab: seq<int>)
    requires Progress(b, f0, t0, done) && !done[ss] && OwnSet(t0, ss, 256) && ColumnSet(tab, t0, ss, 256)
    requires Buckets(b, f) && Elsewhere(b, ss, done, f0, f)
    requires forall c: Byte :: !done[c] ==> SmallSorted(b, f, c, ss)
    ensures Progress(b, f, tab, done[ss := true])
  {
    hide Buckets, IsSet, Cleared;
    forall c, d | 0 <= c < 256 && 0 <= d < 256 && IsSet(tab[PairKey(c, d)]) ensures SmallSorted(b, f, c, d) {
      if d != ss || done[c] {
        assert SmallSorted(b, f0, c, d);
        KeptSorted(b, ss, done, f0, f, c, d);
      }
    }
    hide SmallSorted, Elsewhere;
    forall c, d | 0 <= c < 256 && 0 <= d < 256 && done[ss := true][c] ensures IsSet(tab[PairKey(c, d)]) {
      if d != ss { assert IsSet(t0[PairKey(c, d)]); }
    }
  }

  lemma KeptSorted(b: Block, ss: int, done: seq<bool>, f0: seq<int>, f: seq<int>, c: int, d: int)
    requires Elsewhere(b, ss, done, f0, f) && 0 <= c < 256 && 0 <= d < 256 && (d != ss || done[c])
             && SmallSorted(b, f0, c, d)
    ensures SmallSorted(b, f, c, d)
  {
    hide Ranks;
    forall p | Start(b, PairKey(c, d)) <= p < Start(b, PairKey(c, d) + 1) ensures 0 <= p < |f| && f[p] == f0[p] {
      Here(b, c, d, p);
    }
  }

  method CopyMarks(ftab: array<int>, copyStart: array<int>, copyEnd: array<int>, ss: int, ghost b: Block,
      ghost f: seq<int>, ghost done: seq<bool>)
    requires copyStart != copyEnd && copyStart != ftab && copyEnd != ftab && copyStart.Length == copyEnd.Length == 256
    requires Table(b, f, ftab[..]) && 0 <= ss < 256 && |done| == 256 && !done[ss]
    modifies copyStart, copyEnd
    ensures Layout(b, ss, done, true, Start(b, PairKey(ss, 0)), copyStart[..])
    ensures Layout(b, ss, done, false, Start(b, PairKey(ss + 1, 0)) - 1, copyEnd[..])
  {
    hide SmallSorted, Cleared, Start;
    ghost var t := ftab[..];
    TableSize(b, f, t);
    for j := 0 to 256
      invariant ftab[..] == t
      invariant forall c :: 0 <= c < j ==>
                              copyStart[c] == Start(b, PairKey(c, ss)) && copyEnd[c] == Start(b, PairKey(c, ss) + 1) - 1
    {
      copyStart[j] := Cleared(ftab[j * 256 + ss]);
      copyEnd[j] := Cleared(ftab[j * 256 + ss + 1]) - 1;
      assert t[PairKey(j, ss)] == ftab[j * 256 + ss];
    }
  }

  lemma OwnSorted(b: Block, f: seq<int>, tab: seq<int>, done: seq<bool>, ss: int)
    requires Progress(b, f, tab, done) && OwnSet(tab, ss, 256)
    ensures forall d :: 0 <= d < 256 && d != ss ==> SmallSorted(b, f, ss, d)
    ensures Buckets(b, f) && Table(b, f, tab) && |done| == 256
    ensures Cleared(tab[ss * 256]) == Start(b, PairKey(ss, 0))
            && Cleared(tab[(ss + 1) * 256]) == Start(b, PairKey(ss + 1, 0))
  {
    hide Buckets, SmallSorted, IsSet;
    assert PairKey(ss, 0) == ss * 256 && PairKey(ss + 1, 0) == (ss + 1) * 256;
  }

  /** Step 2: the scans sort every small bucket [j, ss], [ss, ss] included. */
  method SynthesiseColumn(ptr: array<int>, block: array<Byte>, ftab: array<int>, nblock: int, ss: Byte,
      bigDone: array<bool>, ghost b: Block)
    requires ptr != ftab && ptr as object != block && ftab as object != block && ptr as object != bigDone
             && ftab as object != bigDone
    requires nblock == |b| == ptr.Length && Overshot(b, block[..]) && bigDone.Length == 256 && !bigDone[ss]
    requires Progress(b, ptr[..], ftab[..], bigDone[..]) && OwnSet(ftab[..], ss, 256)
    modifies ptr, ftab
    ensures Progress(b, ptr[..], ftab[..], bigDone[..][ss := true])
  {
    hide Progress, Overshot, OwnSet, Table, Start, Buckets, SmallSorted, ScanInv, Layout, SameDirect, Elsewhere,
      ColumnSet, BothScans, OtherSide, LeftList, Cleared;
    ghost var f0, t0, done := ptr[..], ftab[..], bigDone[..];
    OwnSorted(b, f0, t0, done, ss);
    OvershotSize(b, block[..]);
    TableSize(b, f0, t0);
    var copyStart, copyEnd := new int[256], new int[256];
    CopyMarks(ftab, copyStart, copyEnd, ss, b, f0, done);
    assert ftab[..] == t0;
    ghost var atL, atR := copyStart[..], copyEnd[..];
    ghost var ML0 := LeftStarts(b, ss, done, f0, atL);
    ghost var ML := ScanUpwards(ptr, block, nblock, ss, Cleared(ftab[ss * 256]), copyStart, bigDone, b, ML0);
    ghost var fl, curL := ptr[..], copyStart[..];
    ghost var MR0 := RightStarts(b, ss, done, f0, fl, atL, curL, ML, ML0, atR);
    ghost var MR := ScanDownwards(ptr, block, nblock, ss, Cleared(ftab[(ss + 1) * 256]) - 1, copyEnd, bigDone, b, MR0,
                                  LeftList(b, ss, fl, ML));
    Both(b, ss, done, f0, fl, ptr[..], atL, curL, atR, copyEnd[..], ML, ML0, MR, MR0);
    ScansMeet(b, ss, done, f0, fl, ptr[..], atL, curL, atR, copyEnd[..], ML, ML0, MR, MR0);
    assert curL[ss] == copyStart[ss] && copyEnd[..][ss] == copyEnd[ss];
    assert copyStart[ss] - 1 == copyEnd[ss] || (copyStart[ss] == 0 && copyEnd[ss] == nblock - 1);
            // error 1007 cannot happen
    Synthesised(b, ss, done, f0, fl, ptr[..], atL, curL, atR, copyEnd[..], ML, ML0, MR, MR0);
    FlagColumn(ftab, ss);
    ScannedProgress(b, ss, done, f0, ptr[..], t0, ftab[..]);
  }

  lemma Both(b: Block, ss: Byte, done: seq<bool>, f0: seq<int>, fl: seq<int>, f: seq<int>,
             atL: seq<int>, curL: seq<int>, atR: seq<int>, curR: seq<int>, ML: int, ML0: int, MR: int, MR0: int)
    requires Buckets(b, f0) && |b| >= 2 && SameDirect(b, ss, f0, fl)
    requires ScanInv(b, ss, done, true, f0, fl, Start(b, PairKey(ss, 0)), atL, curL, ML, ML, ML0, [])
    requires ScanInv(b, ss, done, false, fl, f, Start(b, PairKey(ss + 1, 0)) - 1, atR, curR, MR, MR, MR0,
                     LeftList(b, ss, fl, ML))
    ensures BothScans(b, ss, done, f0, fl, f, atL, curL, atR, curR, ML, ML0, MR, MR0)
  {
  }

  // ---- step 3: quadrants for the finished big bucket ----

  /** Entries j + 1 .. size - 1 of the big bucket have their new quadrants. */
  ghost predicate Renumbered(b: Block, f: seq<int>, q: seq<int>, q0: seq<int>, ss: int, base: int, size: int, unit: int,
      j: int)
  {
    && |q| == |q0| >= |b| + N_OVERSHOOT && |b| > N_OVERSHOOT && |f| == |b| && unit > 0
    && 0 <= base && 0 <= size && base + size <= |b| && -1 <= j < size
    && (forall p :: base <= p < base + size ==> 0 <= f[p] < |b| && b[f[p]] == ss)
    && (forall p, r :: base <= p < r < base + size ==> f[p] != f[r])
    && (forall i :: 0 <= i < N_OVERSHOOT ==> q[|b| + i] == q[i])
    && (forall x :: 0 <= x < |b| && b[x] != ss ==> q[x] == q0[x])
    && (forall p :: base + j < p < base + size ==> q[f[p]] == (p - base) / unit)
  }

  lemma RenumberStart(b: Block, f: seq<int>, q: seq<int>, ss: int, base: int, size: int, unit: int)
    requires QuadrantsMean(b, q) && Buckets(b, f) && 0 <= ss < 256 && unit > 0
    requires base == Start(b, PairKey(ss, 0)) && base + size == Start(b, PairKey(ss + 1, 0))
    ensures Renumbered(b, f, q, q, ss, base, size, unit, size - 1)
  {
    StartMono(b, PairKey(ss, 0), PairKey(ss + 1, 0));
    forall p | base <= p < base + size ensures 0 <= f[p] < |b| && b[f[p]] == ss {
      assert PairKey(ss, 256) == PairKey(ss + 1, 0);
      InRun(b, f, ss, 0, 256, p);
    }
  }

  function Requadrant(q: seq<int>, n: nat, x: int, v: int): seq<int>
    requires 0 <= x < n && n + N_OVERSHOOT <= |q|
  {
    if x < N_OVERSHOOT then q[x := v][x + n := v] else q[x := v]
  }

  lemma RenumberStep(b: Block, f: seq<int>, q: seq<int>, q0: seq<int>, ss: int, base: int, size: int, unit: int, j: int)
    requires Renumbered(b, f, q, q0, ss, base, size, unit, j) && j >= 0
    ensures |f| == |b| && 0 <= base + j < |b| && 0 <= f[base + j] < |b| && |b| + N_OVERSHOOT <= |q| && unit > 0
    ensures Renumbered(b, f, Requadrant(q, |b|, f[base + j], j / unit), q0, ss, base, size, unit, j - 1)
  {
    var x, v := f[base + j], j / unit;
    var q' := Requadrant(q, |b|, x, v);
    forall p | base + j - 1 < p < base + size ensures q'[f[p]] == (p - base) / unit {
      if p != base + j { assert f[p] != x; }
    }
  }

  lemma RenumberSize(b: Block, f: seq<int>, q: seq<int>, q0: seq<int>, ss: int, base: int, size: int, unit: int, j: int)
    requires Renumbered(b, f, q, q0, ss, base, size, unit, j)
    ensures |q| >= |b| + N_OVERSHOOT
  {
  }

  lemma QuadrantPlaces(b: Block, f: seq<int>, q: seq<int>, q0: seq<int>, ss: int, base: int, size: int, unit: int,
      u: int, w: int)
    requires Renumbered(b, f, q, q0, ss, base, size, unit, -1)
    requires base <= u < base + size && base <= w < base + size
    ensures 0 <= f[u] < |b| && 0 <= f[w] < |b| && (q[f[u]] < q[f[w]] ==> u < w)
  {
    if w <= u { DivMono(w - base, u - base, unit); }
  }

  lemma QuadrantPair(b: Block, f: seq<int>, q: seq<int>, q0: seq<int>, ss: int, base: int, size: int, unit: int, x: int,
      y: int)
    requires Renumbered(b, f, q, q0, ss, base, size, unit, -1) && Buckets(b, f) && 0 <= ss < 256
    requires forall d :: 0 <= d < 256 ==> SmallSorted(b, f, ss, d)
    requires base == Start(b, PairKey(ss, 0)) && base + size == Start(b, PairKey(ss + 1, 0))
    requires 0 <= x < |b| <= |q| && 0 <= y < |b| && b[x] == b[y] == ss && q[x] < q[y]
    ensures Cmp(b, x, y, |b|) <= 0
  {
    hide Renumbered, SmallSorted, Buckets, Ranks, Start;
    RenumberSize(b, f, q, q0, ss, base, size, unit, -1);
    var u := InBigBucket(b, f, ss, x);
    var w := InBigBucket(b, f, ss, y);
    QuadrantPlaces(b, f, q, q0, ss, base, size, unit, u, w);
    assert PairKey(ss, 256) == PairKey(ss + 1, 0);
    RunSorted(b, f, ss, 0, 256, u, w);
    RankOrder(b, x, y);
  }

  /** Positions in the sorted big bucket are quadrants. */
  lemma RenumberEnd(b: Block, f: seq<int>, tab: seq<int>, done: seq<bool>, q: seq<int>, q0: seq<int>, ss: int,
      base: int, size: int, unit: int)
    requires Renumbered(b, f, q, q0, ss, base, size, unit, -1) && QuadrantsMean(b, q0)
    requires Progress(b, f, tab, done) && 0 <= ss < 256 && done[ss]
    requires base == Start(b, PairKey(ss, 0)) && base + size == Start(b, PairKey(ss + 1, 0))
    ensures QuadrantsMean(b, q)
  {
    RowSorted(b, f, tab, done, ss);
    hide SmallSorted, Table, RowsDone, Buckets, Ranks, Start;
    forall x, y | 0 <= x < |b| && 0 <= y < |b| && b[x] == b[y] && q[x] < q[y] ensures Cmp(b, x, y, |b|) <= 0 {
      if b[x] == ss {
        QuadrantPair(b, f, q, q0, ss, base, size, unit, x, y);
      }
    }
  }

  lemma DivMono(a: int, c: int, unit: int)
    requires 0 <= a <= c && unit > 0
    ensures a / unit <= c / unit
  {
    Quotient(a / unit, c / unit, a % unit, c % unit, unit);
  }

  lemma Quotient(u: int, w: int, ra: int, rc: int, unit: int)
    requires unit > 0 && 0 <= ra && rc < unit && unit * u + ra <= unit * w + rc
    ensures u <= w
  {
    if u >= w + 1 { MulStep(u, w, unit); }
  }

  lemma MulStep(u: int, w: int, unit: int)
    requires u >= w + 1 && unit > 0
    ensures unit * u >= unit * w + unit
  {
    var k := u - w - 1;
    assert unit * u == unit * w + unit + unit * k;
  }

  lemma RowSorted(b: Block, f: seq<int>, tab: seq<int>, done: seq<bool>, ss: int)
    requires Progress(b, f, tab, done) && 0 <= ss < 256 && done[ss]
    ensures forall d :: 0 <= d < 256 ==> SmallSorted(b, f, ss, d)
  {
    hide Buckets, SmallSorted, IsSet;
    forall d | 0 <= d < 256 ensures SmallSorted(b, f, ss, d) {
      assert IsSet(tab[PairKey(ss, d)]);
    }
  }

  lemma InBigBucket(b: Block, f: seq<int>, ss: int, x: int) returns (p: int)
    requires Buckets(b, f) && 0 <= x < |b| && b[x] == ss
    ensures Start(b, PairKey(ss, 0)) <= p < Start(b, PairKey(ss + 1, 0)) <= |b| && f[p] == x
  {
    p := Located(b, f, x);
    StartMono(b, PairKey(ss, 0), PairKey(ss, b[Step(|b|, x)]));
    StartMono(b, PairKey(ss, b[Step(|b|, x)]) + 1, PairKey(ss + 1, 0));
  }

  lemma {:induction false} Pow2Above(n: nat)
    ensures n < Pow2(n)
  {
    if n > 0 { Pow2Above(n - 1); }
  }

  /** x >> s. */
  function Shr(x: nat, s: nat): int { x / Pow2(s) }

  lemma ShrSmall(x: nat, s: nat)
    requires Shr(x, s) > 0
    ensures s < x
  {
    Pow2Above(s);
    if x < Pow2(s) { Quotient(x / Pow2(s), 0, x % Pow2(s), x, Pow2(s)); }
  }

  /** How far bucket positions must be shifted to fit 16 bits. */
  method Shifts(bbSize: nat) returns (shifts: nat)
    ensures Shr(bbSize, shifts) <= 65534
    ensures forall s: nat :: s < shifts ==> Shr(bbSize, s) > 65534
  {
    hide Shr;
    shifts := 0;
    while Shr(bbSize, shifts) > 65534
      invariant forall s: nat :: s < shifts ==> Shr(bbSize, s) > 65534
      decreases bbSize - shifts
    {
      ShrSmall(bbSize, shifts);
      shifts := shifts + 1;
    }
  }

  /** Step 3: caches the order of the finished big bucket in the quadrants. */
  method UpdateQuadrants(ptr: array<int>, quadrant: array<int>, ftab: array<int>, nblock: int, ss: int, ghost b: Block,
      ghost done: seq<bool>)
    requires ptr != quadrant && ftab != quadrant && nblock == |b| == ptr.Length
    requires QuadrantsMean(b, quadrant[..]) && Progress(b, ptr[..], ftab[..], done) && 0 <= ss < 256 && done[ss]
    modifies quadrant
    ensures QuadrantsMean(b, quadrant[..])
  {
    hide Renumbered, QuadrantsMean, Progress, Buckets, Table, SmallSorted, Start, Cleared;
    ghost var f, tab, q0 := ptr[..], ftab[..], quadrant[..];
    ProgressFacts(b, f, tab, done, ss);
    var bbStart := Cleared(ftab[ss * 256]);
    var bbSize := Cleared(ftab[(ss + 1) * 256]) - bbStart;
    StartMono(b, PairKey(ss, 0), PairKey(ss + 1, 0));
    var shifts := Shifts(bbSize);
    var unit := Pow2(shifts);
    RenumberStart(b, f, q0, ss, bbStart, bbSize, unit);
    var j := bbSize - 1;
    while j >= 0
      invariant -1 <= j < bbSize && Renumbered(b, f, quadrant[..], q0, ss, bbStart, bbSize, unit, j)
    {
      ghost var q := quadrant[..];
      RenumberSize(b, f, q, q0, ss, bbStart, bbSize, unit, j);
      RenumberStep(b, f, q, q0, ss, bbStart, bbSize, unit, j);
      var a2update := ptr[bbStart + j];
      assert a2update == f[bbStart + j];
      var qVal := Shr(j, shifts);
      DivMono(j, bbSize, unit);
      assert qVal <= 65535;  // 16 bits: nothing is cut off, and error 1002 cannot happen
      quadrant[a2update] := qVal;
      if a2update < N_OVERSHOOT { quadrant[a2update + nblock] := qVal; }
      assert quadrant[..] == Requadrant(q, |b|, a2update, qVal);
      j := j - 1;
    }
    RenumberEnd(b, f, tab, done, quadrant[..], q0, ss, bbStart, bbSize, unit);
  }

  lemma ProgressFacts(b: Block, f: seq<int>, tab: seq<int>, done: seq<bool>, ss: int)
    requires Progress(b, f, tab, done) && 0 <= ss < 256
    ensures Buckets(b, f) && |tab| == 65537 && |done| == 256
    ensures Cleared(tab[ss * 256]) == Start(b, PairKey(ss, 0))
            && Cleared(tab[(ss + 1) * 256]) == Start(b, PairKey(ss + 1, 0))
  {
    hide Buckets, SmallSorted, Start, Cleared, IsSet;
  }

  // ---- the whole sort ----

  lemma StartProgress(b: Block, f: seq<int>, tab: seq<int>, done: seq<bool>)
    requires IsPerm(f, |b|) && Bucketed(PairKeys(b), f, 65536) && |b| < SETMASK
    requires |tab| == 65537 && forall v :: 0 <= v <= 65536 ==> tab[v] == Start(b, v)
    requires |done| == 256 && forall c :: 0 <= c < 256 ==> !done[c]
    ensures Progress(b, f, tab, done)
  {
    hide Start, Bucketed, IsPerm, SmallSorted;
    forall v | 0 <= v <= 65536 ensures !IsSet(tab[v]) { }
  }

  lemma StartQuadrants(b: Block, q: seq<int>)
    requires |b| > N_OVERSHOOT && |q| >= |b| + N_OVERSHOOT && forall x :: 0 <= x < |b| + N_OVERSHOOT ==> q[x] == 0
    ensures QuadrantsMean(b, q)
  {
  }

  /** When every big bucket is done the rotations are sorted. */
  lemma AllDone(b: Block, f: seq<int>, tab: seq<int>, done: seq<bool>)
    requires Progress(b, f, tab, done) && |b| >= 2 && forall c :: 0 <= c < 256 ==> done[c]
    ensures SortedRotations(b, f)
  {
    forall p, q | 0 <= p < q < |b| ensures 0 <= f[p] < |b| && 0 <= f[q] < |b| && Ranks(b)[f[p]] <= Ranks(b)[f[q]] {
      PairInOrder(b, f, tab, done, p, q);
    }
    hide Ranks, Table, RowsDone;
    RankSorted(b, f);
  }

  lemma PairInOrder(b: Block, f: seq<int>, tab: seq<int>, done: seq<bool>, p: int, q: int)
    requires Progress(b, f, tab, done) && |b| >= 2 && forall c :: 0 <= c < 256 ==> done[c]
    requires 0 <= p < q < |b|
    ensures |f| == |b| && 0 <= f[p] < |b| && 0 <= f[q] < |b| && Ranks(b)[f[p]] <= Ranks(b)[f[q]]
  {
    BucketedSorted(PairKeys(b), f, 65536, p, q);
    hide Ranks, Table, RowsDone, IsPerm, Bucketed;
    if PairKeys(b)[f[p]] < PairKeys(b)[f[q]] {
      RankByPair(b, f[p], f[q]);
    } else {
      InsideOwn(b, f, p);
      InsideOwn(b, f, q);
      var c, d := b[f[p]], b[Step(|b|, f[p])];
      assert PairKey(c, d) == PairKey(b[f[q]], b[Step(|b|, f[q])]);
      RowSorted(b, f, tab, done, c);
      assert SmallSorted(b, f, c, d);
    }
  }

  /** The big buckets up to the i-th in running order are done, no others. */
  ghost predicate DoneUpTo(order: seq<int>, done: seq<bool>, i: int) {
    && IsPerm(order, 256) && |done| == 256
    && (forall p :: 0 <= p < 256 ==> done[order[p]] == (p < i))
  }

  lemma DoneNext(order: seq<int>, done: seq<bool>, i: int)
    requires DoneUpTo(order, done, i) && 0 <= i < 256
    ensures 0 <= order[i] < 256 && !done[order[i]] && DoneUpTo(order, done[order[i] := true], i + 1)
  {
  }

  lemma DoneAll(order: seq<int>, done: seq<bool>)
    requires DoneUpTo(order, done, 256)
    ensures |done| == 256 && forall c :: 0 <= c < 256 ==> done[c]
  {
    forall c | 0 <= c < 256 ensures done[c] {
      var p := PermSurjective(order, 256, c);
    }
  }

  lemma OwnDone(b: Block, f: seq<int>, t1: seq<int>, t0: seq<int>, done: seq<bool>, f0: seq<int>)
    requires Progress(b, f0, t0, done) && Buckets(b, f) && Table(b, f, t1) && StillSet(t1, t0)
    ensures Progress(b, f, t1, done)
  {
    hide Buckets, Table;
    StillRows(t1, t0, done);
  }

  /** Processes one big bucket; gives up when the budget has run out. */
  method BigBucket(ptr: array<int>, block: array<Byte>, quadrant: array<int>, ftab: array<int>, bigDone: array<bool>,
      nblock: int, ss: Byte, last: bool, budget: int, ghost b: Block)
    returns (budget': int)
    requires ptr != ftab && ptr != quadrant && quadrant != ftab && ptr as object != block && ftab as object != block
             && quadrant as object != block
    requires bigDone as object !in {ptr, ftab, quadrant} && bigDone as object != block
    requires ptr.Length == nblock < SETMASK && Setting(b, block[..], quadrant[..], nblock)
    requires bigDone.Length == 256 && !bigDone[ss] && budget >= 0
    requires Progress(b, ptr[..], ftab[..], bigDone[..])
    modifies ptr, ftab, quadrant, bigDone
    ensures budget' >= 0 ==> Progress(b, ptr[..], ftab[..], bigDone[..]) && bigDone[..] == old(bigDone[..])[ss := true]
    ensures budget' >= 0 ==> Setting(b, block[..], quadrant[..], nblock)
    ensures budget' <= budget && (Plain(b) ==> budget' == budget)
  {
    hide Buckets, Table, RowsDone, Overshot, QuadrantsMean, OwnSet, StillSet, Plain;
    ghost var f0, t0, done := ptr[..], ftab[..], bigDone[..];
    budget' := SortOwn(ptr, block, quadrant, ftab, nblock, ss, budget, b);
    if budget' < 0 { return; }
    OwnDone(b, ptr[..], ftab[..], t0, done, f0);
    assert bigDone[..] == done;
    assert !bigDone[ss];  // error 1006 cannot happen
    SynthesiseColumn(ptr, block, ftab, nblock, ss, bigDone, b);
    bigDone[ss] := true;
    assert bigDone[..] == done[ss := true];
    if !last {
      UpdateQuadrants(ptr, quadrant, ftab, nblock, ss, b, bigDone[..]);
    }
  }

  /** Sorts the rotations of the block, or gives up with a negative budget; never on a block in which no twenty bytes
      come twice. */
  method MainSort(ptr: array<int>, block: array<Byte>, quadrant: array<int>, ftab: array<int>, nblock: int, budget: int,
      ghost b: Block)
    returns (budget': int)
    requires ptr != ftab && ptr != quadrant && quadrant != ftab && ptr as object != block && ftab as object != block
             && quadrant as object != block
    requires N_OVERSHOOT < nblock < SETMASK && nblock == ptr.Length && ftab.Length == 65537 && budget >= 0
    requires nblock + N_OVERSHOOT <= block.Length && nblock + N_OVERSHOOT <= quadrant.Length && block[..nblock] == b
    modifies ptr, block, quadrant, ftab
    ensures block[..nblock] == b
    ensures budget' >= 0 ==> SortedRotations(b, ptr[..])
    ensures budget' <= budget && (Plain(b) ==> budget' == budget)
  {
    hide Plain, Progress, Overshot, QuadrantsMean, SortedRotations, IsPerm, Bucketed, KeySorted, Start, DoneUpTo;
    InitialSort(ptr, block, quadrant, ftab, nblock, b);
    var runningOrder, bigDone := new int[256], new bool[256](_ => false);
    ComputeRunningOrder(runningOrder, ftab);
    ghost var order := runningOrder[..];
    StartProgress(b, ptr[..], ftab[..], bigDone[..]);
    StartQuadrants(b, quadrant[..]);
    DoneStart(order, bigDone[..]);
    budget' := budget;
    for i := 0 to 256
      invariant budget' >= 0 && runningOrder[..] == order && budget' <= budget && (Plain(b) ==> budget' == budget)
      invariant Setting(b, block[..], quadrant[..], nblock)
      invariant Progress(b, ptr[..], ftab[..], bigDone[..]) && DoneUpTo(order, bigDone[..], i)
      invariant Overshot(b, block[..])
    {
      DoneNext(order, bigDone[..], i);
      var ss := runningOrder[i];
      budget' := BigBucket(ptr, block, quadrant, ftab, bigDone, nblock, ss, i == 255, budget', b);
      if budget' < 0 {
        OvershotBlock(b, block[..]);
        return;
      }
    }
    DoneAll(order, bigDone[..]);
    AllDone(b, ptr[..], ftab[..], bigDone[..]);
    OvershotBlock(b, block[..]);
  }

  lemma DoneStart(order: seq<int>, done: seq<bool>)
    requires IsPerm(order, 256) && |done| == 256 && forall c :: 0 <= c < 256 ==> !done[c]
    ensures DoneUpTo(order, done, 0)
  {
  }

  lemma OvershotBlock(b: Block, block: seq<Byte>)
    requires Overshot(b, block)
    ensures |b| <= |block| && block[..|b|] == b
  {
  }
}
