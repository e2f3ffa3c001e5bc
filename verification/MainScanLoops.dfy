/** The two pointer scans over a big bucket whose small buckets have been sorted
    directly, and the check that they meet. */
module MainScanLoops {
  import opened Bits
  import opened Rotations
  import opened Segments
  import Radix
  import opened MainCompare
  import opened ScanOrder
  import opened MainScan
  import opened MainSynthesis

  lemma ScanSizes(b: Block, ss: int, done: seq<bool>, up: bool, f0: seq<int>, f: seq<int>, base: int, at: seq<int>,
      cur: seq<int>,
                  m: int, M: int, M0: int, other: seq<int>)
    requires ScanInv(b, ss, done, up, f0, f, base, at, cur, m, M, M0, other)
    ensures |f| == |b| && |cur| == |done| == 256 && 0 <= ss < 256 && 0 <= m <= M
    ensures At(base, up, M) == cur[ss]
    ensures if up then 0 <= base && base + M <= |b| else base < |b| && base - M >= -1
    ensures m < M ==> 0 <= At(base, up, m) < |f| && 0 <= f[At(base, up, m)] < |b|
  {
    hide Good, Direct, Untouched, Counts, Placed;
    if m < M { StretchRead(b, ss, up, f, base, at, cur, m, M, M0); }
  }

  /** The rotation that starts one byte earlier, and its first byte. */
  method Predecessor(x: int, block: array<Byte>, nblock: int, ghost b: Block) returns (k: int, c1: Byte)
    requires nblock == |b| && Overshot(b, block[..]) && 0 <= x < nblock
    ensures k == Back(|b|, x, 1) && 0 <= k < nblock && c1 == b[k]
  {
    k := x - 1;
    if k < 0 { k := k + nblock; }
    c1 := block[k];
    assert block[..][..|b|] == b;
  }

  /** Fills small buckets [c1, ss] from their start, walking big bucket ss up to
      the moving fill mark of [ss, ss]. */
  method ScanUpwards(ptr: array<int>, block: array<Byte>, nblock: int, ss: Byte, from: int, copyStart: array<int>,
      bigDone: array<bool>, ghost b: Block, ghost M0: int)
    returns (ghost M: int)
    requires ptr != copyStart && ptr as object != block && copyStart as object != block
    requires ptr as object != bigDone && copyStart as object != bigDone
    requires nblock == |b| && Overshot(b, block[..]) && bigDone.Length == copyStart.Length == 256
    requires ScanInv(b, ss, bigDone[..], true, ptr[..], ptr[..], from, copyStart[..], copyStart[..], 0, M0, M0, [])
    modifies ptr, copyStart
    ensures ScanInv(b, ss, bigDone[..], true, old(ptr[..]), ptr[..], from, old(copyStart[..]), copyStart[..], M, M, M0,
                    [])
  {
    hide ScanInv, Overshot;
    ghost var f0, at, done := ptr[..], copyStart[..], bigDone[..];
    M := M0;
    var j := from;
    ScanSizes(b, ss, done, true, f0, ptr[..], from, at, copyStart[..], 0, M, M0, []);
    while j < copyStart[ss]
      invariant from <= j && ScanInv(b, ss, done, true, f0, ptr[..], from, at, copyStart[..], j - from, M, M0, [])
      invariant 0 <= M <= |b| - from && j - from <= M && copyStart[ss] == from + M
      decreases nblock - j
    {
      ghost var f1, cur1 := ptr[..], copyStart[..];
      ScanSizes(b, ss, done, true, f0, f1, from, at, cur1, j - from, M, M0, []);
      assert f1[At(from, true, j - from)] == ptr[j];
      var k, c1 := Predecessor(ptr[j], block, nblock, b);
      if !bigDone[c1] {
        assert OtherSide(b, ss, true, []);
        ScanWrite(b, ss, done, true, f0, f1, from, at, cur1, j - from, M, M0, [], k);
        ptr[copyStart[c1]] := k;
        copyStart[c1] := copyStart[c1] + 1;
        assert ptr[..] == f1[cur1[c1] := k] && copyStart[..] == Moved(cur1, c1, true);
        M := if c1 == ss then M + 1 else M;
      } else {
        ScanSkip(b, ss, done, true, f0, f1, from, at, cur1, j - from, M, M0, []);
        assert ptr[..] == f1 && copyStart[..] == cur1;
      }
      j := j + 1;
      ScanSizes(b, ss, done, true, f0, ptr[..], from, at, copyStart[..], j - from, M, M0, []);
    }
  }

  /** Fills small buckets [c1, ss] from their end, walking big bucket ss down to
      the moving fill mark of [ss, ss]. */
  method ScanDownwards(ptr: array<int>, block: array<Byte>, nblock: int, ss: Byte, from: int, copyEnd: array<int>,
      bigDone: array<bool>, ghost b: Block, ghost M0: int, ghost other: seq<int>)
    returns (ghost M: int)
    requires ptr != copyEnd && ptr as object != block && copyEnd as object != block
    requires ptr as object != bigDone && copyEnd as object != bigDone
    requires nblock == |b| && Overshot(b, block[..]) && bigDone.Length == copyEnd.Length == 256
    requires OtherSide(b, ss, false, other)
    requires ScanInv(b, ss, bigDone[..], false, ptr[..], ptr[..], from, copyEnd[..], copyEnd[..], 0, M0, M0, other)
    modifies ptr, copyEnd
    ensures ScanInv(b, ss, bigDone[..], false, old(ptr[..]), ptr[..], from, old(copyEnd[..]), copyEnd[..], M, M, M0,
                    other)
  {
    hide ScanInv, Overshot, OtherSide;
    ghost var f0, at, done := ptr[..], copyEnd[..], bigDone[..];
    M := M0;
    var j := from;
    ScanSizes(b, ss, done, false, f0, ptr[..], from, at, copyEnd[..], 0, M, M0, other);
    while j > copyEnd[ss]
      invariant j <= from && ScanInv(b, ss, done, false, f0, ptr[..], from, at, copyEnd[..], from - j, M, M0, other)
      invariant 0 <= M <= from + 1 && from - j <= M && copyEnd[ss] == from - M
      decreases j + 1
    {
      ghost var f1, cur1 := ptr[..], copyEnd[..];
      ScanSizes(b, ss, done, false, f0, f1, from, at, cur1, from - j, M, M0, other);
      assert f1[At(from, false, from - j)] == ptr[j];
      var k, c1 := Predecessor(ptr[j], block, nblock, b);
      if !bigDone[c1] {
        ScanWrite(b, ss, done, false, f0, f1, from, at, cur1, from - j, M, M0, other, k);
        ptr[copyEnd[c1]] := k;
        copyEnd[c1] := copyEnd[c1] - 1;
        assert ptr[..] == f1[cur1[c1] := k] && copyEnd[..] == Moved(cur1, c1, false);
        M := if c1 == ss then M + 1 else M;
      } else {
        ScanSkip(b, ss, done, false, f0, f1, from, at, cur1, from - j, M, M0, other);
        assert ptr[..] == f1 && copyEnd[..] == cur1;
      }
      j := j - 1;
      ScanSizes(b, ss, done, false, f0, ptr[..], from, at, copyEnd[..], from - j, M, M0, other);
    }
  }

  /** The left scan has not touched what the right scan starts from. */
  lemma SameDirectAfter(b: Block, ss: Byte, done: seq<bool>, f0: seq<int>, fl: seq<int>, cur: seq<int>)
    requires Untouched(b, ss, done, true, f0, fl, cur)
    ensures SameDirect(b, ss, f0, fl)
  {
    hide Inside;
    forall d, p | 0 <= d < 256 && d != ss && Inside(b, ss, d, p) ensures 0 <= p < |b| && fl[p] == f0[p] {
      InsideRange(b, ss, d, p);
    }
  }

  lemma SameStretch(b: Block, ss: int, f0: seq<int>, fl: seq<int>, base: int, M0: int)
    requires SameDirect(b, ss, f0, fl) && Buckets(b, f0) && 0 <= ss < 256
    requires base == Start(b, PairKey(ss + 1, 0)) - 1 && base - M0 == Start(b, PairKey(ss, ss) + 1) - 1 && 0 <= M0
    requires base < |f0| && base - M0 >= -1
    ensures Scanned(fl, base, false, M0) == Scanned(f0, base, false, M0)
  {
    forall i | 0 <= i < M0 ensures fl[At(base, false, i)] == f0[At(base, false, i)] {
      assert PairKey(ss, 256) == PairKey(ss + 1, 0) && PairKey(ss, ss + 1) == PairKey(ss, ss) + 1;
      InRun(b, f0, ss, ss + 1, 256, base - i);
      InsideOwn(b, f0, base - i);
    }
  }

  lemma LeftStarts(b: Block, ss: Byte, done: seq<bool>, f: seq<int>, at: seq<int>) returns (M0: int)
    requires Buckets(b, f) && |b| >= 2 && forall d :: 0 <= d < 256 && d != ss ==> SmallSorted(b, f, ss, d)
    requires Layout(b, ss, done, true, Start(b, PairKey(ss, 0)), at)
    ensures ScanInv(b, ss, done, true, f, f, Start(b, PairKey(ss, 0)), at, at, 0, M0, M0, [])
  {
    hide Buckets, SmallSorted;
    var base := Start(b, PairKey(ss, 0));
    StartMono(b, PairKey(ss, 0), PairKey(ss, ss));
    M0 := at[ss] - base;
    DirectGood(b, f, ss, true, base, M0);
    BucketsRange(b, f);
    ScanStarts(b, ss, done, true, f, base, at, M0, []);
  }

  lemma RightStarts(b: Block, ss: Byte, done: seq<bool>, f0: seq<int>, fl: seq<int>, atL: seq<int>, curL: seq<int>,
      ML: int, ML0: int, at: seq<int>) returns (M0: int)
    requires Buckets(b, f0) && |b| >= 2 && forall d :: 0 <= d < 256 && d != ss ==> SmallSorted(b, f0, ss, d)
    requires ScanInv(b, ss, done, true, f0, fl, Start(b, PairKey(ss, 0)), atL, curL, ML, ML, ML0, [])
    requires Layout(b, ss, done, false, Start(b, PairKey(ss + 1, 0)) - 1, at)
    ensures SameDirect(b, ss, f0, fl)
    ensures OtherSide(b, ss, false, LeftList(b, ss, fl, ML))
    ensures ScanInv(b, ss, done, false, fl, fl, Start(b, PairKey(ss + 1, 0)) - 1, at, at, 0, M0, M0,
                    LeftList(b, ss, fl, ML))
  {
    hide Buckets, SmallSorted, Direct, Counts, Placed, SameDirect;
    SameDirectAfter(b, ss, done, f0, fl, curL);
    var base := Start(b, PairKey(ss + 1, 0)) - 1;
    StartMono(b, PairKey(ss, ss) + 1, PairKey(ss + 1, 0));
    M0 := base - at[ss];
    DirectGood(b, f0, ss, false, base, M0);
    SameStretch(b, ss, f0, fl, base, M0);
    BucketsRange(b, f0);
    ScanStarts(b, ss, done, false, fl, base, at, M0, LeftList(b, ss, fl, ML));
  }

  /** The fill marks of [ss, ss] meet, unless the block is one byte repeated. */
  lemma ScansMeet(b: Block, ss: Byte, done: seq<bool>, f0: seq<int>, fl: seq<int>, f: seq<int>,
                  atL: seq<int>, curL: seq<int>, atR: seq<int>, curR: seq<int>, ML: int, ML0: int, MR: int, MR0: int)
    requires BothScans(b, ss, done, f0, fl, f, atL, curL, atR, curR, ML, ML0, MR, MR0)
    ensures |curL| == |curR| == 256
    ensures curL[ss] - 1 == curR[ss] || (curL[ss] == 0 && curR[ss] == |b| - 1)
  {
    hide BothScans, Preds, Pair, Good, LeftList, RightList, Buckets, Start, Untouched, Placed;
    ListsFacts(b, ss, done, f0, fl, f, atL, curL, atR, curR, ML, ML0, MR, MR0);
    BothSizes(b, ss, done, f0, fl, f, atL, curL, atR, curR, ML, ML0, MR, MR0);
    PairCount(b, ss, ss);
    if exists i :: 0 <= i < |b| && b[i] != ss {
      ExactFill(b, ss, done, f0, fl, f, atL, curL, atR, curR, ML, ML0, MR, MR0, ss);
    } else {
      NothingOnSide(b, ss, true, LeftList(b, ss, fl, ML));
      NothingOnSide(b, ss, false, RightList(b, ss, f, MR));
      WholeBucket(b, ss);
    }
  }

  lemma WholeBucket(b: Block, ss: Byte)
    requires forall i :: 0 <= i < |b| ==> b[i] == ss
    ensures Start(b, PairKey(ss, ss)) == 0 && Start(b, PairKey(ss, ss) + 1) == |b|
  {
    AllKeys(PairKeys(b), PairKey(ss, ss));
  }

  lemma {:induction false} AllKeys(keys: seq<int>, v: int)
    requires forall i :: 0 <= i < |keys| ==> keys[i] == v
    ensures Radix.Below(keys, v) == 0 && Radix.Below(keys, v + 1) == |keys|
  {
    if keys != [] { AllKeys(keys[..|keys| - 1], v); }
  }
}
