/** What the two pointer scans leave behind: every small bucket [c, ss] of a big
    bucket not yet done holds its rotations, each once, in order. */
module MainSynthesis {
  import opened Bits
  import opened Rotations
  import opened Segments
  import opened RotationRank
  import opened Permutations
  import opened Radix
  import opened ScanOrder
  import opened MainScan

  /** Small bucket [c, d] is sorted. */
  ghost predicate SmallSorted(b: Block, f: seq<int>, c: int, d: int) {
    KeySorted(Ranks(b), f, Start(b, PairKey(c, d)), Start(b, PairKey(c, d) + 1))
  }

  /** f lists every rotation once, by its first two bytes. */
  ghost predicate Buckets(b: Block, f: seq<int>) {
    IsPerm(f, |b|) && Bucketed(PairKeys(b), f, 65536)
  }

  lemma InsideKey(b: Block, f: seq<int>, c: int, d: int, p: int)
    requires Buckets(b, f) && 0 <= c < 256 && 0 <= d < 256 && Inside(b, c, d, p)
    ensures 0 <= p < |b| && 0 <= f[p] < |b| && b[f[p]] == c && b[Step(|b|, f[p])] == d
  {
    assert PairKeys(b)[f[p]] == PairKey(c, d);
  }

  /** Where a rotation stands. */
  lemma Located(b: Block, f: seq<int>, x: int) returns (p: int)
    requires Buckets(b, f) && 0 <= x < |b|
    ensures 0 <= p < |b| && f[p] == x && Inside(b, b[x], b[Step(|b|, x)], p)
  {
    p := PermSurjective(f, |b|, x);
    BucketedSorted(PairKeys(b), f, 65536, p, p);
  }

  /** The position's own small bucket. */
  lemma InsideOwn(b: Block, f: seq<int>, p: int)
    requires Buckets(b, f) && 0 <= p < |b|
    ensures Inside(b, b[f[p]], b[Step(|b|, f[p])], p)
  {
    BucketedSorted(PairKeys(b), f, 65536, p, p);
  }

  lemma RankByPair(b: Block, x: int, y: int)
    requires 0 <= x < |b| && 0 <= y < |b| && |b| >= 2
    requires PairKeys(b)[x] < PairKeys(b)[y]
    ensures Ranks(b)[x] <= Ranks(b)[y]
  {
    assert Cmp(b, x, y, 2) == -1;
    CmpExtend(b, x, y, 2, |b|);
    RankOrder(b, x, y);
  }

  /** A run of sorted small buckets of one big bucket is sorted. */
  lemma RunSorted(b: Block, f: seq<int>, c: int, d0: int, d1: int, p: int, q: int)
    requires Buckets(b, f) && 0 <= c < 256 && 0 <= d0 <= d1 <= 256 && |b| >= 2
    requires forall d :: d0 <= d < d1 ==> SmallSorted(b, f, c, d)
    requires Start(b, PairKey(c, d0)) <= p < q < Start(b, PairKey(c, d1))
    ensures 0 <= f[p] < |b| && 0 <= f[q] < |b| && Ranks(b)[f[p]] <= Ranks(b)[f[q]]
    ensures b[f[p]] == c && d0 <= b[Step(|b|, f[p])] < d1
  {
    hide Ranks;
    InRun(b, f, c, d0, d1, p);
    InRun(b, f, c, d0, d1, q);
    BucketedSorted(PairKeys(b), f, 65536, p, q);
    var d, e := b[Step(|b|, f[p])], b[Step(|b|, f[q])];
    if d == e {
      InsideOwn(b, f, p);
      InsideOwn(b, f, q);
      assert SmallSorted(b, f, c, d);
    } else {
      RankByPair(b, f[p], f[q]);
    }
  }

  lemma InRun(b: Block, f: seq<int>, c: int, d0: int, d1: int, p: int)
    requires Buckets(b, f) && 0 <= c < 256 && 0 <= d0 <= d1 <= 256
    requires Start(b, PairKey(c, d0)) <= p < Start(b, PairKey(c, d1))
    ensures 0 <= p < |b| && 0 <= f[p] < |b| && b[f[p]] == c && d0 <= b[Step(|b|, f[p])] < d1
  {
    InsideOwn(b, f, p);
    var v := PairKey(b[f[p]], b[Step(|b|, f[p])]);
    if v < PairKey(c, d0) { StartMono(b, v + 1, PairKey(c, d0)); }
    if v >= PairKey(c, d1) { StartMono(b, PairKey(c, d1), v); }
  }

  /** The directly sorted part of the big bucket is a good list to start from. */
  lemma DirectGood(b: Block, f: seq<int>, ss: int, up: bool, base: int, M0: int)
    requires Buckets(b, f) && 0 <= ss < 256 && |b| >= 2 && 0 <= M0
    requires forall d :: 0 <= d < 256 && d != ss ==> SmallSorted(b, f, ss, d)
    requires base == (if up then Start(b, PairKey(ss, 0)) else Start(b, PairKey(ss + 1, 0)) - 1)
    requires At(base, up, M0) == if up then Start(b, PairKey(ss, ss)) else Start(b, PairKey(ss, ss) + 1) - 1
    ensures if up then 0 <= base && base + M0 <= |f| else base < |f| && base - M0 >= -1
    ensures Good(b, ss, up, Scanned(f, base, up, M0)) && Direct(b, ss, up, Scanned(f, base, up, M0))
  {
    hide Ranks, SmallSorted;
    var s := Scanned(f, base, up, M0);
    var lo, hi := if up then 0 else ss + 1, if up then ss else 256;
    assert PairKey(ss, 256) == PairKey(ss + 1, 0) && PairKey(ss, ss + 1) == PairKey(ss, ss) + 1;
    forall i | 0 <= i < M0
      ensures OnSide(b, s[i], ss, up)
      ensures if up then b[Step(|b|, s[i])] < ss else b[Step(|b|, s[i])] > ss
    {
      InRun(b, f, ss, lo, hi, At(base, up, i));
      assert Side(b, s[i], ss, 2) == if up then -1 else 1;
      SideExtend(b, s[i], ss, 2, |b|);
    }
    forall i, j | 0 <= i < j < M0 ensures s[i] != s[j] && Precedes(b, s[i], s[j], up) {
      if up {
        RunSorted(b, f, ss, lo, hi, At(base, up, i), At(base, up, j));
      } else {
        RunSorted(b, f, ss, lo, hi, At(base, up, j), At(base, up, i));
      }
    }
  }

  /** g and f agree on the directly sorted small buckets of ss. */
  ghost predicate SameDirect(b: Block, ss: int, g: seq<int>, f: seq<int>) {
    |g| == |f| == |b| && forall d, p :: 0 <= d < 256 && d != ss && Inside(b, ss, d, p) ==> f[p] == g[p]
  }

  lemma SameDirectSelf(b: Block, ss: int, g: seq<int>)
    requires Buckets(b, g)
    ensures SameDirect(b, ss, g, g)
  {
    forall d, p | 0 <= d < 256 && Inside(b, ss, d, p) ensures 0 <= p < |b| { InsideRange(b, ss, d, p); }
  }

  /** A finished scan has met every rotation on its side. */
  lemma {:induction false} AllFound(b: Block, ss: int, done: seq<bool>, up: bool, g: seq<int>, f0: seq<int>,
      f: seq<int>, base: int, at: seq<int>, cur: seq<int>,
                                    M: int, M0: int, other: seq<int>, x: int, h: nat)
    requires ScanInv(b, ss, done, up, f0, f, base, at, cur, M, M, M0, other) && Buckets(b, g)
             && SameDirect(b, ss, g, f0)
    requires 0 <= x < |b| && b[x] == ss && (if up then Side(b, x, ss, h) < 0 else Side(b, x, ss, h) > 0)
    ensures x in Scanned(f, base, up, M)
    decreases h
  {
    hide Good, Direct, Counts, Placed, Preds, Buckets;
    var s := Scanned(f, base, up, M);
    var y := Step(|b|, x);
    if b[y] == ss {
      AllFound(b, ss, done, up, g, f0, f, base, at, cur, M, M0, other, y, h - 1);
      assert s[..M] == s;
      PredsMember(b, s, ss, x);
    } else {
      var p := Located(b, g, x);
      FoundDirect(b, ss, done, up, f0, f, base, at, cur, M, M0, other, x, p);
    }
  }

  lemma FoundDirect(b: Block, ss: int, done: seq<bool>, up: bool, f0: seq<int>, f: seq<int>, base: int, at: seq<int>,
      cur: seq<int>,
                    M: int, M0: int, other: seq<int>, x: int, p: int)
    requires ScanInv(b, ss, done, up, f0, f, base, at, cur, M, M, M0, other)
    requires 0 <= x < |b| && b[x] == ss && 0 <= p < |b| && f0[p] == x && Inside(b, ss, b[Step(|b|, x)], p)
    requires if up then b[Step(|b|, x)] < ss else b[Step(|b|, x)] > ss
    ensures x in Scanned(f, base, up, M)
  {
    hide Good, Direct, Counts, Placed, Preds;
    var d := b[Step(|b|, x)];
    assert f[p] == f0[p];
    if up {
      StartMono(b, PairKey(ss, 0), PairKey(ss, d));
      StartMono(b, PairKey(ss, d) + 1, PairKey(ss, ss));
      assert Scanned(f, base, up, M)[p - base] == x;
    } else {
      StartMono(b, PairKey(ss, d) + 1, PairKey(ss + 1, 0));
      StartMono(b, PairKey(ss, ss) + 1, PairKey(ss, d));
      assert Scanned(f, base, up, M)[base - p] == x;
    }
  }

  lemma ScanStarts(b: Block, ss: int, done: seq<bool>, up: bool, f: seq<int>, base: int, at: seq<int>, M0: int,
      other: seq<int>)
    requires Layout(b, ss, done, up, base, at) && |f| == |b| && 0 <= M0
    requires At(base, up, M0) == at[ss]
    requires if up then 0 <= base && base + M0 <= |f| else base < |f| && base - M0 >= -1
    requires Good(b, ss, up, Scanned(f, base, up, M0)) && Direct(b, ss, up, Scanned(f, base, up, M0))
    requires OtherSide(b, ss, up, other)
    ensures ScanInv(b, ss, done, up, f, f, base, at, at, 0, M0, M0, other)
  {
    var s := Scanned(f, base, up, M0);
    forall c: int | 0 <= c < 256 && !done[c] ensures |Preds(b, s[..0], c)| + |Preds(b, other, c)| <= |Pair(b, c, ss)| {
      Room(b, ss, up, s, 0, other, c);
    }
    hide Good, Direct, OtherSide, Pair, Side;
    assert s[..M0] == s && s + Preds(b, s[..0], ss) == s;
    UntouchedSelf(b, ss, done, up, f, at);
  }

  lemma UntouchedSelf(b: Block, ss: int, done: seq<bool>, up: bool, f: seq<int>, cur: seq<int>)
    requires |done| == |cur| == 256 && |f| == |b|
    ensures Untouched(b, ss, done, up, f, f, cur)
  {
    forall c, d, p | 0 <= c < 256 && 0 <= d < 256 && Inside(b, c, d, p) ensures 0 <= p < |b| {
      InsideRange(b, c, d, p);
    }
  }

  /** The two scans, finished: fl after the left one, f after both. */
  ghost predicate BothScans(b: Block, ss: int, done: seq<bool>, f0: seq<int>, fl: seq<int>, f: seq<int>,
                            atL: seq<int>, curL: seq<int>, atR: seq<int>, curR: seq<int>, ML: int, ML0: int, MR: int,
                              MR0: int)
  {
    && Buckets(b, f0) && |b| >= 2 && SameDirect(b, ss, f0, fl)
    && ScanInv(b, ss, done, true, f0, fl, Start(b, PairKey(ss, 0)), atL, curL, ML, ML, ML0, [])
    && ScanInv(b, ss, done, false, fl, f, Start(b, PairKey(ss + 1, 0)) - 1, atR, curR, MR, MR, MR0,
               LeftList(b, ss, fl, ML))
  }

  ghost function LeftList(b: Block, ss: int, fl: seq<int>, ML: int): seq<int> {
    var base := Start(b, PairKey(ss, 0));
    if 0 <= ML && base + ML <= |fl| then Scanned(fl, base, true, ML) else []
  }

  ghost function RightList(b: Block, ss: int, f: seq<int>, MR: int): seq<int> {
    var base := Start(b, PairKey(ss + 1, 0)) - 1;
    if 0 <= MR && base < |f| && base - MR >= -1 then Scanned(f, base, false, MR) else []
  }

  /** What the lists contain. */
  lemma ListsFacts(b: Block, ss: int, done: seq<bool>, f0: seq<int>, fl: seq<int>, f: seq<int>,
                   atL: seq<int>, curL: seq<int>, atR: seq<int>, curR: seq<int>, ML: int, ML0: int, MR: int, MR0: int)
    requires BothScans(b, ss, done, f0, fl, f, atL, curL, atR, curR, ML, ML0, MR, MR0)
    ensures Good(b, ss, true, LeftList(b, ss, fl, ML)) && Good(b, ss, false, RightList(b, ss, f, MR))
    ensures Counts(b, ss, done, true, atL, curL, LeftList(b, ss, fl, ML), [])
    ensures Counts(b, ss, done, false, atR, curR, RightList(b, ss, f, MR), LeftList(b, ss, fl, ML))
    ensures Placed(b, done, true, fl, atL, LeftList(b, ss, fl, ML))
            && Placed(b, done, false, f, atR, RightList(b, ss, f, MR))
    ensures Layout(b, ss, done, true, Start(b, PairKey(ss, 0)), atL)
            && Layout(b, ss, done, false, Start(b, PairKey(ss + 1, 0)) - 1, atR)
    ensures Untouched(b, ss, done, true, f0, fl, curL) && Untouched(b, ss, done, false, fl, f, curR)
  {
    hide Good, Direct, Counts, Placed, Preds, Buckets, Untouched, SameDirect, Layout;
    var l, r := LeftList(b, ss, fl, ML), RightList(b, ss, f, MR);
    assert l[..ML] == l && r[..MR] == r;
  }

  lemma Complete(b: Block, ss: int, done: seq<bool>, f0: seq<int>, fl: seq<int>, f: seq<int>,
                 atL: seq<int>, curL: seq<int>, atR: seq<int>, curR: seq<int>, ML: int, ML0: int, MR: int, MR0: int,
                   z: int)
    requires BothScans(b, ss, done, f0, fl, f, atL, curL, atR, curR, ML, ML0, MR, MR0)
    requires 0 <= z < |b| && b[z] == ss
    ensures z in LeftList(b, ss, fl, ML) || z in RightList(b, ss, f, MR) || Side(b, z, ss, |b|) == 0
  {
    hide Good, Direct, Counts, Placed, Preds, Buckets, Untouched, SameDirect, Layout, Side;
    if Side(b, z, ss, |b|) < 0 {
      SameDirectSelf(b, ss, f0);
      AllFound(b, ss, done, true, f0, f0, fl, Start(b, PairKey(ss, 0)), atL, curL, ML, ML0, [], z, |b|);
    } else if Side(b, z, ss, |b|) > 0 {
      AllFound(b, ss, done, false, f0, fl, f, Start(b, PairKey(ss + 1, 0)) - 1, atR, curR, MR, MR0,
               LeftList(b, ss, fl, ML), z, |b|);
    }
  }

  /** The scans together fill [c, ss] exactly, unless the block is one byte repeated. */
  lemma ExactFill(b: Block, ss: Byte, done: seq<bool>, f0: seq<int>, fl: seq<int>, f: seq<int>,
                  atL: seq<int>, curL: seq<int>, atR: seq<int>, curR: seq<int>, ML: int, ML0: int, MR: int, MR0: int,
                    c: Byte)
    requires BothScans(b, ss, done, f0, fl, f, atL, curL, atR, curR, ML, ML0, MR, MR0)
    requires exists i :: 0 <= i < |b| && b[i] != ss
    ensures |Preds(b, LeftList(b, ss, fl, ML), c)| + |Preds(b, RightList(b, ss, f, MR), c)| == |Pair(b, c, ss)|
  {
    hide BothScans, Counts, Placed, LeftList, RightList, InScanOrder;
    var l, r := LeftList(b, ss, fl, ML), RightList(b, ss, f, MR);
    ListsFacts(b, ss, done, f0, fl, f, atL, curL, atR, curR, ML, ML0, MR, MR0);
    forall x | x in l ensures OnSide(b, x, ss, true) && x !in r {
    }
    forall x | x in Pair(b, c, ss) ensures Step(|b|, x) in l || Step(|b|, x) in r {
      var z := Step(|b|, x);
      Complete(b, ss, done, f0, fl, f, atL, curL, atR, curR, ML, ML0, MR, MR0, z);
      if Side(b, z, ss, |b|) == 0 { SideAll(b, z, ss); }
    }
    PredsFit(b, l, r, c, ss);
  }

  /** What stands at each position of [c, ss] afterwards. */
  lemma FilledAt(b: Block, ss: Byte, done: seq<bool>, f0: seq<int>, fl: seq<int>, f: seq<int>,
                 atL: seq<int>, curL: seq<int>, atR: seq<int>, curR: seq<int>, ML: int, ML0: int, MR: int, MR0: int,
                   c: Byte, p: int)
    requires BothScans(b, ss, done, f0, fl, f, atL, curL, atR, curR, ML, ML0, MR, MR0)
    requires exists i :: 0 <= i < |b| && b[i] != ss
    requires !done[c] && Inside(b, c, ss, p)
    ensures 0 <= p < |f|
    ensures var l, r := Preds(b, LeftList(b, ss, fl, ML), c), Preds(b, RightList(b, ss, f, MR), c);
            var k := p - Start(b, PairKey(c, ss));
            0 <= k < |Pair(b, c, ss)| && |l| + |r| == |Pair(b, c, ss)| &&
            if k < |l| then f[p] == l[k] else 0 <= |Pair(b, c, ss)| - 1 - k < |r| && f[p] == r[|Pair(b, c, ss)| - 1 - k]
  {
    hide BothScans, Preds, Pair, Good, LeftList, RightList, Buckets, Start, Untouched, Inside, Layout, Counts;
    var ll, rr := LeftList(b, ss, fl, ML), RightList(b, ss, f, MR);
    ListsFacts(b, ss, done, f0, fl, f, atL, curL, atR, curR, ML, ML0, MR, MR0);
    ExactFill(b, ss, done, f0, fl, f, atL, curL, atR, curR, ML, ML0, MR, MR0, c);
    var k, t := p - Start(b, PairKey(c, ss)), |Pair(b, c, ss)|;
    MarksMeet(b, ss, done, fl, f, atL, curL, atR, curR, ll, rr, c, p);
    if k < |Preds(b, ll, c)| {
      StillThere(b, ss, done, fl, f, curR, c, p);
      assert fl[At(atL[c], true, k)] == Preds(b, ll, c)[k];
    } else {
      assert f[At(atR[c], false, t - 1 - k)] == Preds(b, rr, c)[t - 1 - k];
    }
  }

  /** In a full bucket the two fill marks meet. */
  lemma MarksMeet(b: Block, ss: Byte, done: seq<bool>, fl: seq<int>, f: seq<int>, atL: seq<int>, curL: seq<int>,
      atR: seq<int>, curR: seq<int>,
                  ll: seq<int>, rr: seq<int>, c: Byte, p: int)
    requires Layout(b, ss, done, true, Start(b, PairKey(ss, 0)), atL)
             && Layout(b, ss, done, false, Start(b, PairKey(ss + 1, 0)) - 1, atR)
    requires Counts(b, ss, done, true, atL, curL, ll, []) && Counts(b, ss, done, false, atR, curR, rr, ll)
    requires !done[c] && Inside(b, c, ss, p)
    requires |Preds(b, ll, c)| + |Preds(b, rr, c)| == |Pair(b, c, ss)|
    ensures 0 <= p < |b| && 0 <= p - Start(b, PairKey(c, ss)) < |Pair(b, c, ss)|
    ensures atL[c] == Start(b, PairKey(c, ss)) && atR[c] == atL[c] + |Pair(b, c, ss)| - 1
    ensures curL[c] == atL[c] + |Preds(b, ll, c)| && curR[c] == curL[c] - 1
  {
    hide Preds, Pair, Start;
    PairCount(b, c, ss);
    InsideRange(b, c, ss, p);
  }

  lemma StillThere(b: Block, ss: Byte, done: seq<bool>, fl: seq<int>, f: seq<int>, curR: seq<int>, c: Byte, p: int)
    requires Untouched(b, ss, done, false, fl, f, curR) && Inside(b, c, ss, p) && p <= curR[c]
    ensures 0 <= p < |f| && |fl| == |f| && f[p] == fl[p]
  {
    InsideRange(b, c, ss, p);
  }

  lemma PredOfGood(b: Block, ss: int, up: bool, s: seq<int>, c: int, x: int)
    requires Good(b, ss, up, s) && x in Preds(b, s, c)
    ensures 0 <= x < |b| && b[x] == c && b[Step(|b|, x)] == ss
  {
    hide Preds, InScanOrder;
    PredsMember(b, s, c, x);
    var i :| 0 <= i < |s| && s[i] == Step(|b|, x);
    assert OnSide(b, s[i], ss, up);
  }

  lemma FilledFacts(b: Block, ss: Byte, done: seq<bool>, f0: seq<int>, fl: seq<int>, f: seq<int>,
                    atL: seq<int>, curL: seq<int>, atR: seq<int>, curR: seq<int>, ML: int, ML0: int, MR: int, MR0: int,
                      c: Byte, p: int)
    requires BothScans(b, ss, done, f0, fl, f, atL, curL, atR, curR, ML, ML0, MR, MR0)
    requires exists i :: 0 <= i < |b| && b[i] != ss
    requires !done[c] && Inside(b, c, ss, p)
    ensures 0 <= p < |f| && 0 <= f[p] < |b| && b[f[p]] == c && b[Step(|b|, f[p])] == ss
  {
    hide BothScans, Preds, Good, Counts, Placed, LeftList, RightList, Pair, Layout, Untouched, Start, Inside;
    FilledAt(b, ss, done, f0, fl, f, atL, curL, atR, curR, ML, ML0, MR, MR0, c, p);
    ListsFacts(b, ss, done, f0, fl, f, atL, curL, atR, curR, ML, ML0, MR, MR0);
    var ll, rr := LeftList(b, ss, fl, ML), RightList(b, ss, f, MR);
    assert f[p] in Preds(b, ll, c) || f[p] in Preds(b, rr, c);
    if f[p] in Preds(b, ll, c) {
      PredOfGood(b, ss, true, ll, c, f[p]);
    } else {
      PredOfGood(b, ss, false, rr, c, f[p]);
    }
  }

  /** A predecessor of a rotation below the ss string comes before one of a rotation above it. */
  lemma AcrossSides(b: Block, ss: int, ll: seq<int>, rr: seq<int>, c: int, x: int, y: int)
    requires Good(b, ss, true, ll) && Good(b, ss, false, rr)
    requires 0 <= x < |b| && 0 <= y < |b| && b[x] == b[y] == c
    requires Step(|b|, x) in ll && Step(|b|, y) in rr
    ensures x != y && Ranks(b)[x] <= Ranks(b)[y]
  {
    var x', y' := Step(|b|, x), Step(|b|, y);
    var i :| 0 <= i < |ll| && ll[i] == x';
    var j :| 0 <= j < |rr| && rr[j] == y';
    assert OnSide(b, ll[i], ss, true) && OnSide(b, rr[j], ss, false);
    SidesOrder(b, x', y', ss, |b|);
    RankOrder(b, x', y');
    PredRank(b, x, y, true);
  }

  /** Entries k < e of a bucket filled with l from the left and r from the right. */
  lemma RunsOrder(b: Block, ss: int, ll: seq<int>, rr: seq<int>, c: int, x: int, y: int, k: int, e: int, t: int)
    requires Good(b, ss, true, ll) && Good(b, ss, false, rr)
    requires t == |Preds(b, ll, c)| + |Preds(b, rr, c)| && 0 <= k < e < t
    requires if k < |Preds(b, ll, c)| then x == Preds(b, ll, c)[k] else x == Preds(b, rr, c)[t - 1 - k]
    requires if e < |Preds(b, ll, c)| then y == Preds(b, ll, c)[e] else y == Preds(b, rr, c)[t - 1 - e]
    ensures 0 <= x < |b| && 0 <= y < |b| && x != y && Ranks(b)[x] <= Ranks(b)[y]
  {
    hide Preds, Ranks, OnSide;
    var l, r := Preds(b, ll, c), Preds(b, rr, c);
    PredsDistinct(b, ll, c);
    PredsDistinct(b, rr, c);
    PredsOrdered(b, ll, c, true);
    PredsOrdered(b, rr, c, false);
    if e < |l| {
      assert Precedes(b, l[k], l[e], true);
    } else if k >= |l| {
      assert Precedes(b, r[t - 1 - e], r[t - 1 - k], false);
    } else {
      assert x in l && y in r;
      PredsMember(b, ll, c, x);
      PredsMember(b, rr, c, y);
      AcrossSides(b, ss, ll, rr, c, x, y);
    }
  }

  /** Two positions of [c, ss]: different rotations, in order. */
  lemma FilledOrder(b: Block, ss: Byte, done: seq<bool>, f0: seq<int>, fl: seq<int>, f: seq<int>,
                    atL: seq<int>, curL: seq<int>, atR: seq<int>, curR: seq<int>, ML: int, ML0: int, MR: int, MR0: int,
                      c: Byte, p: int, q: int)
    requires BothScans(b, ss, done, f0, fl, f, atL, curL, atR, curR, ML, ML0, MR, MR0)
    requires exists i :: 0 <= i < |b| && b[i] != ss
    requires !done[c] && Inside(b, c, ss, p) && Inside(b, c, ss, q) && p < q
    ensures 0 <= p < |f| && 0 <= q < |f| && 0 <= f[p] < |b| && 0 <= f[q] < |b|
    ensures f[p] != f[q] && Ranks(b)[f[p]] <= Ranks(b)[f[q]]
  {
    hide BothScans, Preds, Good, Counts, Placed, LeftList, RightList, Pair, Ranks, Layout, Untouched, Start;
    FilledAt(b, ss, done, f0, fl, f, atL, curL, atR, curR, ML, ML0, MR, MR0, c, p);
    FilledAt(b, ss, done, f0, fl, f, atL, curL, atR, curR, ML, ML0, MR, MR0, c, q);
    ListsFacts(b, ss, done, f0, fl, f, atL, curL, atR, curR, ML, ML0, MR, MR0);
    PairCount(b, c, ss);
    RunsOrder(b, ss, LeftList(b, ss, fl, ML), RightList(b, ss, f, MR), c, f[p], f[q],
              p - Start(b, PairKey(c, ss)), q - Start(b, PairKey(c, ss)), |Pair(b, c, ss)|);
  }

  /** Step 2 leaves the list of rotations complete, bucket by bucket, sorts every
      [c, ss] of a big bucket not done, and touches nothing else. */
  lemma Synthesised(b: Block, ss: Byte, done: seq<bool>, f0: seq<int>, fl: seq<int>, f: seq<int>,
                    atL: seq<int>, curL: seq<int>, atR: seq<int>, curR: seq<int>, ML: int, ML0: int, MR: int, MR0: int)
    requires BothScans(b, ss, done, f0, fl, f, atL, curL, atR, curR, ML, ML0, MR, MR0)
    ensures Buckets(b, f) && Elsewhere(b, ss, done, f0, f)
    ensures forall c: Byte :: !done[c] ==> SmallSorted(b, f, c, ss)
  {
    hide Buckets, Ranks;
    ScansElsewhere(b, ss, done, f0, fl, f, atL, curL, atR, curR, ML, ML0, MR, MR0);
    if exists i :: 0 <= i < |b| && b[i] != ss {
      forall c: Byte | !done[c] ensures SmallSorted(b, f, c, ss) {
        NewSorted(b, ss, done, f0, fl, f, atL, curL, atR, curR, ML, ML0, MR, MR0, c);
      }
      NewBuckets(b, ss, done, f0, fl, f, atL, curL, atR, curR, ML, ML0, MR, MR0);
    } else {
      OneByte(b, ss, done, f0, fl, f, atL, curL, atR, curR, ML, ML0, MR, MR0);
    }
  }

  /** The small buckets the scans do not write. */
  ghost predicate Elsewhere(b: Block, ss: int, done: seq<bool>, f0: seq<int>, f: seq<int>) {
    && |done| == 256 && |f| == |f0| == |b|
    && forall c, d, p :: 0 <= c < 256 && 0 <= d < 256 && Inside(b, c, d, p) && (d != ss || done[c]) ==> f[p] == f0[p]
  }

  lemma ScansElsewhere(b: Block, ss: Byte, done: seq<bool>, f0: seq<int>, fl: seq<int>, f: seq<int>,
                       atL: seq<int>, curL: seq<int>, atR: seq<int>, curR: seq<int>, ML: int, ML0: int, MR: int,
                         MR0: int)
    requires BothScans(b, ss, done, f0, fl, f, atL, curL, atR, curR, ML, ML0, MR, MR0)
    ensures Elsewhere(b, ss, done, f0, f)
  {
    hide BothScans, Preds, Good, Counts, Placed, LeftList, RightList, Layout, Inside;
    ListsFacts(b, ss, done, f0, fl, f, atL, curL, atR, curR, ML, ML0, MR, MR0);
    forall c, d, p | 0 <= c < 256 && 0 <= d < 256 && Inside(b, c, d, p) && (d != ss || done[c])
      ensures 0 <= p < |b| && f[p] == f0[p]
    {
      InsideRange(b, c, d, p);
      assert fl[p] == f0[p];
    }
  }

  lemma BothSizes(b: Block, ss: Byte, done: seq<bool>, f0: seq<int>, fl: seq<int>, f: seq<int>,
                  atL: seq<int>, curL: seq<int>, atR: seq<int>, curR: seq<int>, ML: int, ML0: int, MR: int, MR0: int)
    requires BothScans(b, ss, done, f0, fl, f, atL, curL, atR, curR, ML, ML0, MR, MR0)
    ensures |f| == |fl| == |f0| == |b| && Buckets(b, f0) && |done| == 256
  {
  }

  lemma InsideSorted(b: Block, f: seq<int>, c: int, ss: int)
    requires |f| == |b|
    requires forall p :: Inside(b, c, ss, p) ==> 0 <= p < |f| && 0 <= f[p] < |b|
    requires forall p, q :: Inside(b, c, ss, p) && Inside(b, c, ss, q) && p < q ==> Ranks(b)[f[p]] <= Ranks(b)[f[q]]
    ensures SmallSorted(b, f, c, ss)
  {
    hide Ranks;
    StartMono(b, PairKey(c, ss), PairKey(c, ss) + 1);
    forall p | Start(b, PairKey(c, ss)) <= p < Start(b, PairKey(c, ss) + 1) ensures Inside(b, c, ss, p) { }
  }

  lemma NewSorted(b: Block, ss: Byte, done: seq<bool>, f0: seq<int>, fl: seq<int>, f: seq<int>,
                  atL: seq<int>, curL: seq<int>, atR: seq<int>, curR: seq<int>, ML: int, ML0: int, MR: int, MR0: int,
                    c: Byte)
    requires BothScans(b, ss, done, f0, fl, f, atL, curL, atR, curR, ML, ML0, MR, MR0)
    requires exists i :: 0 <= i < |b| && b[i] != ss
    requires !done[c]
    ensures SmallSorted(b, f, c, ss)
  {
    hide BothScans, Ranks, Elsewhere, Buckets;
    BothSizes(b, ss, done, f0, fl, f, atL, curL, atR, curR, ML, ML0, MR, MR0);
    forall p | Inside(b, c, ss, p) ensures 0 <= p < |f| && 0 <= f[p] < |b| {
      FilledFacts(b, ss, done, f0, fl, f, atL, curL, atR, curR, ML, ML0, MR, MR0, c, p);
    }
    forall p, q | Inside(b, c, ss, p) && Inside(b, c, ss, q) && p < q ensures Ranks(b)[f[p]] <= Ranks(b)[f[q]] {
      FilledOrder(b, ss, done, f0, fl, f, atL, curL, atR, curR, ML, ML0, MR, MR0, c, p, q);
    }
    InsideSorted(b, f, c, ss);
  }

  /** Right content and no repetition in each small bucket make a bucketed permutation. */
  lemma BucketsFrom(b: Block, f0: seq<int>, f: seq<int>)
    requires Buckets(b, f0) && |f| == |b|
    requires forall c, d, p :: 0 <= c < 256 && 0 <= d < 256 && Inside(b, c, d, p) ==>
               0 <= p < |f| && 0 <= f[p] < |b| && b[f[p]] == c && b[Step(|b|, f[p])] == d
    requires forall c, d, p, q :: (0 <= c < 256 && 0 <= d < 256 && Inside(b, c, d, p) && Inside(b, c, d, q)
                                   && 0 <= p < q < |f|) ==> f[p] != f[q]
    ensures Buckets(b, f)
  {
    forall p | 0 <= p < |b| ensures 0 <= f[p] < |b| && Inside(b, b[f[p]], b[Step(|b|, f[p])], p) {
      InsideOwn(b, f0, p);
    }
    forall v, p | 0 <= v < 65536 && Below(PairKeys(b), v) <= p < Below(PairKeys(b), v + 1)
      ensures PairKeys(b)[f[p]] == v {
      assert v == PairKey(v / 256, v % 256) && Inside(b, v / 256, v % 256, p);
    }
    forall p, q | 0 <= p < q < |b| ensures f[p] != f[q] {
      assert Inside(b, b[f[p]], b[Step(|b|, f[p])], p) && Inside(b, b[f[q]], b[Step(|b|, f[q])], q);
    }
  }

  lemma NewBuckets(b: Block, ss: Byte, done: seq<bool>, f0: seq<int>, fl: seq<int>, f: seq<int>,
                   atL: seq<int>, curL: seq<int>, atR: seq<int>, curR: seq<int>, ML: int, ML0: int, MR: int, MR0: int)
    requires BothScans(b, ss, done, f0, fl, f, atL, curL, atR, curR, ML, ML0, MR, MR0)
    requires exists i :: 0 <= i < |b| && b[i] != ss
    ensures Buckets(b, f)
  {
    ScansElsewhere(b, ss, done, f0, fl, f, atL, curL, atR, curR, ML, ML0, MR, MR0);
    assert Buckets(b, f0);
    hide BothScans, Buckets, Inside, Ranks;
    forall c, d, p | 0 <= c < 256 && 0 <= d < 256 && Inside(b, c, d, p)
      ensures 0 <= p < |f| && 0 <= f[p] < |b| && b[f[p]] == c && b[Step(|b|, f[p])] == d
    {
      InsideRange(b, c, d, p);
      if d == ss && !done[c] {
        FilledFacts(b, ss, done, f0, fl, f, atL, curL, atR, curR, ML, ML0, MR, MR0, c, p);
      } else {
        InsideKey(b, f0, c, d, p);
      }
    }
    forall c, d, p, q | 0 <= c < 256 && 0 <= d < 256 && Inside(b, c, d, p) && Inside(b, c, d, q) && 0 <= p < q < |f|
      ensures f[p] != f[q]
    {
      if d == ss && !done[c] {
        FilledOrder(b, ss, done, f0, fl, f, atL, curL, atR, curR, ML, ML0, MR, MR0, c, p, q);
      } else {
        BucketsDistinct(b, f0, p, q);
      }
    }
    BucketsFrom(b, f0, f);
  }

  lemma BucketsDistinct(b: Block, f: seq<int>, p: int, q: int)
    requires Buckets(b, f) && 0 <= p < q < |b|
    ensures |f| == |b| && f[p] != f[q]
  {
  }

  /** A block of one byte: no scan finds anything, and all rotations are equal. */
  lemma OneByte(b: Block, ss: Byte, done: seq<bool>, f0: seq<int>, fl: seq<int>, f: seq<int>,
                atL: seq<int>, curL: seq<int>, atR: seq<int>, curR: seq<int>, ML: int, ML0: int, MR: int, MR0: int)
    requires BothScans(b, ss, done, f0, fl, f, atL, curL, atR, curR, ML, ML0, MR, MR0)
    requires forall i :: 0 <= i < |b| ==> b[i] == ss
    ensures Buckets(b, f)
    ensures forall c: Byte :: !done[c] ==> SmallSorted(b, f, c, ss)
  {
    hide BothScans, Buckets, Preds, Inside, LeftList, RightList, Start, Layout, Counts, Placed, Untouched, Good,
      SmallSorted;
    BothSizes(b, ss, done, f0, fl, f, atL, curL, atR, curR, ML, ML0, MR, MR0);
    ListsFacts(b, ss, done, f0, fl, f, atL, curL, atR, curR, ML, ML0, MR, MR0);
    BucketsRange(b, f0);
    NothingOnSide(b, ss, true, LeftList(b, ss, fl, ML));
    NothingOnSide(b, ss, false, RightList(b, ss, f, MR));
    var baseL, baseR := Start(b, PairKey(ss, 0)), Start(b, PairKey(ss + 1, 0)) - 1;
    forall p | 0 <= p < |b| ensures f[p] == f0[p] {
      InsideOwn(b, f0, p);
      NothingWritten(b, ss, done, true, f0, fl, atL, curL, baseL, LeftList(b, ss, fl, ML), [], ss, p);
      NothingWritten(b, ss, done, false, fl, f, atR, curR, baseR, RightList(b, ss, f, MR), LeftList(b, ss, fl, ML), ss,
                     p);
    }
    assert f == f0;
    forall c: Byte | !done[c] ensures SmallSorted(b, f, c, ss) {
      AllEqualSorted(b, f, ss, c);
    }
  }

  lemma BucketsRange(b: Block, f: seq<int>)
    requires Buckets(b, f)
    ensures |f| == |b| && forall p :: 0 <= p < |b| ==> 0 <= f[p] < |b|
  {
  }

  lemma NothingOnSide(b: Block, ss: int, up: bool, s: seq<int>)
    requires Good(b, ss, up, s) && forall i :: 0 <= i < |b| ==> b[i] == ss
    ensures s == [] && forall c :: Preds(b, s, c) == []
  {
    if s != [] {
      assert OnSide(b, s[0], ss, up);
      AllSide(b, s[0], ss, |b|);
    }
  }

  lemma NothingWritten(b: Block, ss: int, done: seq<bool>, up: bool, f0: seq<int>, f: seq<int>, at: seq<int>,
      cur: seq<int>, base: int, src: seq<int>, other: seq<int>,
                       c: int, p: int)
    requires Layout(b, ss, done, up, base, at) && Counts(b, ss, done, up, at, cur, src, other)
             && Untouched(b, ss, done, up, f0, f, cur)
    requires 0 <= c < 256 && Inside(b, c, ss, p) && Preds(b, src, c) == []
    ensures 0 <= p < |f| == |f0| && f[p] == f0[p]
  {
    InsideRange(b, c, ss, p);
  }

  lemma AllEqualSorted(b: Block, f: seq<int>, ss: int, c: int)
    requires |f| == |b| && (forall i :: 0 <= i < |b| ==> b[i] == ss) && (forall p :: 0 <= p < |b| ==> 0 <= f[p] < |b|)
    ensures SmallSorted(b, f, c, ss)
  {
    StartMono(b, PairKey(c, ss), PairKey(c, ss) + 1);
    forall p, q | 0 <= p < |b| && 0 <= q < |b| ensures Ranks(b)[f[p]] <= Ranks(b)[f[q]] {
      AllEqualCmp(b, f[p], f[q], ss, |b|);
      RankOrder(b, f[p], f[q]);
    }
  }

  lemma {:induction false} AllEqualCmp(b: Block, x: int, y: int, ss: int, h: nat)
    requires 0 <= x < |b| && 0 <= y < |b| && forall i :: 0 <= i < |b| ==> b[i] == ss
    ensures Cmp(b, x, y, h) == 0
    decreases h
  {
    if h > 0 { AllEqualCmp(b, Step(|b|, x), Step(|b|, y), ss, h - 1); }
  }
}
