/** Pointer scanning: a sorted big bucket [ss] yields the sorted small buckets
    [t, ss] of every big bucket t that is not done, [ss, ss] included. */
module MainScan {
  import opened Bits
  import opened Sequences
  import opened Rotations
  import opened Segments
  import opened RotationRank
  import opened Permutations
  import opened Radix
  import opened ScanOrder

  /** i places on from base, scanning up or down. */
  function At(base: int, up: bool, i: int): int {
    if up then base + i else base - i
  }

  /** The first m entries met when scanning from base. */
  ghost function Scanned(f: seq<int>, base: int, up: bool, m: int): (s: seq<int>)
    requires 0 <= m && (if up then 0 <= base && base + m <= |f| else base < |f| && base - m >= -1)
    ensures |s| == m && forall i :: 0 <= i < m ==> s[i] == f[At(base, up, i)]
  {
    seq(m, i requires 0 <= i < m => f[At(base, up, i)])
  }

  /** Where the two scans start: the ends of big bucket ss and of the small buckets [c, ss]. */
  ghost predicate Layout(b: Block, ss: int, done: seq<bool>, up: bool, base: int, at: seq<int>) {
    && |done| == |at| == 256 && 0 <= ss < 256 && !done[ss]
    && base == (if up then Start(b, PairKey(ss, 0)) else Start(b, PairKey(ss + 1, 0)) - 1)
    && (forall c :: 0 <= c < 256 ==> at[c] == if up then Start(b, PairKey(c, ss)) else Start(b, PairKey(c, ss) + 1) - 1)
  }

  /** On the side of the string of ss bytes that this scan deals with. */
  ghost predicate OnSide(b: Block, x: int, ss: int, up: bool) {
    0 <= x < |b| && b[x] == ss && if up then Side(b, x, ss, |b|) < 0 else Side(b, x, ss, |b|) > 0
  }

  /** A list of rotations of big bucket ss, in scanning order, all on one side. */
  ghost predicate Good(b: Block, ss: int, up: bool, s: seq<int>) {
    && Distinct(s) && InScanOrder(b, s, up)
    && (forall i :: 0 <= i < |s| ==> OnSide(b, s[i], ss, up))
  }

  /** The part of big bucket ss that was sorted directly: second byte not ss. */
  ghost predicate Direct(b: Block, ss: int, up: bool, s: seq<int>) {
    forall i :: 0 <= i < |s| ==> 0 <= s[i] < |b| && (if up then b[Step(|b|, s[i])] < ss else b[Step(|b|, s[i])] > ss)
  }

  lemma PrecedesBySide(b: Block, z: int, y: int, ss: int, up: bool)
    requires 0 <= z < |b| && 0 <= y < |b| && b[z] == ss && b[y] == ss && |b| >= 2
    requires if up then b[Step(|b|, z)] < ss else b[Step(|b|, z)] > ss
    requires b[Step(|b|, y)] == ss
    ensures Precedes(b, z, y, up)
  {
    RankOrder(b, z, y);
    RankOrder(b, y, z);
    assert Cmp(b, z, y, 2) == if up then -1 else 1;
    CmpAnti(b, z, y, 2);
    CmpExtend(b, z, y, 2, |b|);
    CmpExtend(b, y, z, 2, |b|);
  }

  lemma ExtendOne(b: Block, ss: int, up: bool, s0: seq<int>, s: seq<int>, m: int, i: int)
    requires Good(b, ss, up, s) && Direct(b, ss, up, s0)
    requires 0 <= m < |s| && s == s0 + Preds(b, s[..m], ss) && 0 <= i < |s|
    requires b[Back(|b|, s[m], 1)] == ss
    ensures s[i] != Back(|b|, s[m], 1) && Precedes(b, s[i], Back(|b|, s[m], 1), up)
  {
    hide Ranks, Precedes, Side, Preds;
    var y, t := Back(|b|, s[m], 1), s[..m];
    assert Step(|b|, y) == s[m] && OnSide(b, s[m], ss, up) && OnSide(b, s[i], ss, up);
    if i < |s0| {
      assert s[i] == s0[i];
      PrecedesBySide(b, s[i], y, ss, up);
    } else {
      assert s[i] == Preds(b, t, ss)[i - |s0|];
      PredsMember(b, t, ss, s[i]);
      var j :| 0 <= j < m && t[j] == Step(|b|, s[i]);
      assert Precedes(b, s[j], s[m], up);
      PredRank(b, s[i], y, up);
    }
  }

  /** The next predecessor found in big bucket ss itself extends the list. */
  lemma GoodExtend(b: Block, ss: int, up: bool, s0: seq<int>, s: seq<int>, m: int)
    requires Good(b, ss, up, s) && Direct(b, ss, up, s0)
    requires 0 <= m < |s| && s == s0 + Preds(b, s[..m], ss)
    requires b[Back(|b|, s[m], 1)] == ss
    ensures Good(b, ss, up, s + [Back(|b|, s[m], 1)])
    ensures s + [Back(|b|, s[m], 1)] == s0 + Preds(b, s[..m + 1], ss)
  {
    hide Ranks, Precedes, Side;
    var y := Back(|b|, s[m], 1);
    assert Step(|b|, y) == s[m] && OnSide(b, s[m], ss, up);
    SideStep(b, y, ss);
    assert s[..m + 1][..m] == s[..m];
    forall i | 0 <= i < |s| ensures s[i] != y && Precedes(b, s[i], y, up) {
      ExtendOne(b, ss, up, s0, s, m, i);
    }
  }

  /** How far each small bucket has been filled, and that it has room. */
  ghost predicate Counts(b: Block, ss: int, done: seq<bool>, up: bool, at: seq<int>, cur: seq<int>, src: seq<int>,
      other: seq<int>)
  {
    && |done| == |at| == |cur| == 256 && 0 <= ss < 256
    && (forall c :: 0 <= c < 256 ==>
          cur[c] == if done[c] then at[c] else At(at[c], up, |Preds(b, src, c)|))
    && (forall c :: 0 <= c < 256 && !done[c] ==> |Preds(b, src, c)| + |Preds(b, other, c)| <= |Pair(b, c, ss)|)
  }

  /** The filled parts hold the predecessors, in order. */
  ghost predicate Placed(b: Block, done: seq<bool>, up: bool, f: seq<int>, at: seq<int>, src: seq<int>) {
    && |done| == |at| == 256
    && (forall c, t :: 0 <= c < 256 && !done[c] && 0 <= t < |Preds(b, src, c)| ==>
          0 <= At(at[c], up, t) < |f| && f[At(at[c], up, t)] == Preds(b, src, c)[t])
  }

  /** Position p belongs to small bucket [c, d]. */
  ghost predicate Inside(b: Block, c: int, d: int, p: int) {
    Start(b, PairKey(c, d)) <= p < Start(b, PairKey(c, d) + 1)
  }

  predicate Ahead(up: bool, p: int, mark: int) {
    if up then p >= mark else p <= mark
  }

  /** Nothing else has changed. */
  ghost predicate Untouched(b: Block, ss: int, done: seq<bool>, up: bool, f0: seq<int>, f: seq<int>, cur: seq<int>) {
    && |done| == |cur| == 256 && |f| == |f0| == |b|
    && (forall c, d, p :: (0 <= c < 256 && 0 <= d < 256 && Inside(b, c, d, p)
                           && (d != ss || done[c] || Ahead(up, p, cur[c]))) ==> f[p] == f0[p])
  }

  /** The scanned stretch of big bucket ss up to the fill mark of [ss, ss]. */
  ghost predicate Stretch(b: Block, ss: int, up: bool, f: seq<int>, base: int, at: seq<int>, cur: seq<int>, m: int,
      M: int, M0: int)
  {
    && |at| == |cur| == 256 && 0 <= ss < 256 && |f| == |b|
    && 0 <= m <= M && 0 <= M0 <= M
    && (if up then 0 <= base && base + M <= |f| else base < |f| && base - M >= -1)
    && At(base, up, M0) == at[ss] && At(base, up, M) == cur[ss]
    && var s := Scanned(f, base, up, M);
       Good(b, ss, up, s) && Direct(b, ss, up, s[..M0]) && s == s[..M0] + Preds(b, s[..m], ss)
  }

  ghost predicate ScanInv(b: Block, ss: int, done: seq<bool>, up: bool, f0: seq<int>, f: seq<int>, base: int,
      at: seq<int>, cur: seq<int>,
                          m: int, M: int, M0: int, other: seq<int>)
  {
    && Layout(b, ss, done, up, base, at)
    && Stretch(b, ss, up, f, base, at, cur, m, M, M0)
    && Untouched(b, ss, done, up, f0, f, cur)
    && var src := Scanned(f, base, up, M)[..m];
       Counts(b, ss, done, up, at, cur, src, other) && Placed(b, done, up, f, at, src)
  }

  /** Rotations of big bucket ss on the other side. */
  ghost predicate OtherSide(b: Block, ss: int, up: bool, other: seq<int>) {
    Distinct(other) && forall i :: 0 <= i < |other| ==> OnSide(b, other[i], ss, !up)
  }

  /** There is room for one more predecessor. */
  lemma Room(b: Block, ss: Byte, up: bool, s: seq<int>, m: int, other: seq<int>, c: Byte)
    requires Good(b, ss, up, s) && OtherSide(b, ss, up, other) && 0 <= m <= |s|
    ensures |Preds(b, s[..m], c)| + |Preds(b, other, c)| <= |Pair(b, c, ss)|
  {
    hide InScanOrder, Preds;
    forall x | x in s[..m] ensures OnSide(b, x, ss, up) && x !in other {
    }
    PredsFit(b, s[..m], other, c, ss);
  }

  /** A cell of one small bucket is in no other. */
  lemma BucketsApart(b: Block, c: int, d: int, c': int, d': int, p: int)
    requires 0 <= c < 256 && 0 <= d < 256 && 0 <= c' < 256 && 0 <= d' < 256
    requires Inside(b, c, d, p) && Inside(b, c', d', p)
    ensures c == c' && d == d'
  {
    var v, w := PairKey(c, d), PairKey(c', d');
    if v < w { StartMono(b, v + 1, w); }
    if w < v { StartMono(b, w + 1, v); }
    assert c == v / 256 && c' == w / 256;
  }

  /** The cell about to be written. */
  lemma CellInBucket(b: Block, ss: int, done: seq<bool>, up: bool, base: int, at: seq<int>, cur: seq<int>,
      src: seq<int>, other: seq<int>, y: int)
    requires Layout(b, ss, done, up, base, at) && Counts(b, ss, done, up, at, cur, src, other)
    requires 0 <= y < |b| && !done[b[y]]
    requires |Preds(b, src, b[y])| + 1 <= |Pair(b, b[y], ss)|
    ensures Inside(b, b[y], ss, cur[b[y]])
    ensures 0 <= cur[b[y]] < |b|
  {
    hide Preds, Start, Pair;
    PairCount(b, b[y], ss);
  }

  /** The entry about to be read. */
  lemma StretchRead(b: Block, ss: int, up: bool, f: seq<int>, base: int, at: seq<int>, cur: seq<int>, m: int, M: int,
      M0: int)
    requires Stretch(b, ss, up, f, base, at, cur, m, M, M0) && m < M
    ensures 0 <= At(base, up, m) < |f| && 0 <= f[At(base, up, m)] < |b|
    ensures Scanned(f, base, up, M)[m] == f[At(base, up, m)]
  {
    assert OnSide(b, Scanned(f, base, up, M)[m], ss, up);
  }

  /** Skipping an entry whose predecessor's big bucket is done. */
  lemma ScanSkip(b: Block, ss: int, done: seq<bool>, up: bool, f0: seq<int>, f: seq<int>, base: int, at: seq<int>,
      cur: seq<int>,
                 m: int, M: int, M0: int, other: seq<int>)
    requires ScanInv(b, ss, done, up, f0, f, base, at, cur, m, M, M0, other) && m < M
    requires 0 <= f[At(base, up, m)] < |b| && done[b[Back(|b|, f[At(base, up, m)], 1)]]
    ensures ScanInv(b, ss, done, up, f0, f, base, at, cur, m + 1, M, M0, other)
  {
    hide Good, Direct, Untouched;
    var s := Scanned(f, base, up, M);
    assert s[..m + 1][..m] == s[..m];
    forall c | 0 <= c < 256 && !done[c] ensures Preds(b, s[..m + 1], c) == Preds(b, s[..m], c) { }
  }

  /** The fill marks after one more write into small bucket [c, ss]. */
  function Moved(cur: seq<int>, c: int, up: bool): seq<int>
    requires 0 <= c < |cur|
  {
    cur[c := At(cur[c], up, 1)]
  }

  lemma WriteUntouched(b: Block, ss: int, done: seq<bool>, up: bool, f0: seq<int>, f: seq<int>, cur: seq<int>, c: int,
      y: int)
    requires Untouched(b, ss, done, up, f0, f, cur) && 0 <= c < 256 && 0 <= ss < 256 && !done[c]
    requires 0 <= cur[c] < |f| && Inside(b, c, ss, cur[c])
    ensures Untouched(b, ss, done, up, f0, f[cur[c] := y], Moved(cur, c, up))
  {
    hide Inside;
    forall c1, d1, p | 0 <= c1 < 256 && 0 <= d1 < 256 && Inside(b, c1, d1, p)
      && (d1 != ss || done[c1] || Ahead(up, p, Moved(cur, c, up)[c1]))
      ensures 0 <= p < |f| && f[cur[c] := y][p] == f0[p]
    {
      InsideRange(b, c1, d1, p);
      if p == cur[c] { BucketsApart(b, c, ss, c1, d1, p); }
    }
  }

  lemma InsideRange(b: Block, c: int, d: int, p: int)
    requires Inside(b, c, d, p)
    ensures 0 <= p < |b|
  {
  }

  lemma CellInside(b: Block, ss: int, done: seq<bool>, up: bool, base: int, at: seq<int>, cur: seq<int>, src: seq<int>,
      other: seq<int>, c: int, t: int)
    requires Layout(b, ss, done, up, base, at) && Counts(b, ss, done, up, at, cur, src, other)
    requires 0 <= c < 256 && !done[c] && 0 <= t < |Preds(b, src, c)|
    ensures Inside(b, c, ss, At(at[c], up, t))
  {
    hide Preds, Start, Pair;
    PairCount(b, c, ss);
  }

  lemma WritePlaced(b: Block, ss: int, done: seq<bool>, up: bool, f: seq<int>, base: int, at: seq<int>, cur: seq<int>,
      src: seq<int>, other: seq<int>, x: int)
    requires Layout(b, ss, done, up, base, at) && Counts(b, ss, done, up, at, cur, src, other)
    requires Placed(b, done, up, f, at, src) && |f| == |b|
    requires 0 <= x < |b| && !done[b[Back(|b|, x, 1)]]
    requires Inside(b, b[Back(|b|, x, 1)], ss, cur[b[Back(|b|, x, 1)]])
    ensures 0 <= cur[b[Back(|b|, x, 1)]] < |f|
    ensures Placed(b, done, up, f[cur[b[Back(|b|, x, 1)]] := Back(|b|, x, 1)], at, src + [x])
  {
    var y := Back(|b|, x, 1);
    var c := b[y];
    var src' := src + [x];
    assert src'[..|src'| - 1] == src;
    InsideRange(b, c, ss, cur[c]);
    var f' := f[cur[c] := y];
    hide Inside;
    forall c1, t | 0 <= c1 < 256 && !done[c1] && 0 <= t < |Preds(b, src', c1)|
      ensures 0 <= At(at[c1], up, t) < |f'| && f'[At(at[c1], up, t)] == Preds(b, src', c1)[t]
    {
      if t < |Preds(b, src, c1)| {
        CellInside(b, ss, done, up, base, at, cur, src, other, c1, t);
        InsideRange(b, c1, ss, At(at[c1], up, t));
        if At(at[c1], up, t) == cur[c] { BucketsApart(b, c1, ss, c, ss, cur[c]); }
        assert f[At(at[c1], up, t)] == Preds(b, src, c1)[t];
      }
    }
  }

  lemma WriteCounts(b: Block, ss: int, done: seq<bool>, up: bool, at: seq<int>, cur: seq<int>, src: seq<int>,
      other: seq<int>, x: int)
    requires Counts(b, ss, done, up, at, cur, src, other) && 0 <= x < |b| && !done[b[Back(|b|, x, 1)]]
    requires var c := b[Back(|b|, x, 1)]; |Preds(b, src, c)| + 1 + |Preds(b, other, c)| <= |Pair(b, c, ss)|
    ensures Counts(b, ss, done, up, at, Moved(cur, b[Back(|b|, x, 1)], up), src + [x], other)
  {
    assert (src + [x])[..|src|] == src;
  }

  /** A cell of [c, ss] with c != ss is outside big bucket ss. */
  lemma OutsideBig(b: Block, c: int, ss: int, q: int)
    requires 0 <= c < 256 && 0 <= ss < 256 && c != ss && Inside(b, c, ss, q)
    ensures q < Start(b, PairKey(ss, 0)) || q >= Start(b, PairKey(ss + 1, 0))
  {
    if c < ss {
      StartMono(b, PairKey(c, ss) + 1, PairKey(ss, 0));
    } else {
      StartMono(b, PairKey(ss + 1, 0), PairKey(c, ss));
    }
  }

  lemma FillMarkInBig(b: Block, ss: int, done: seq<bool>, up: bool, base: int, at: seq<int>, cur: seq<int>,
      src: seq<int>, other: seq<int>)
    requires Layout(b, ss, done, up, base, at) && Counts(b, ss, done, up, at, cur, src, other)
    ensures if up then cur[ss] <= Start(b, PairKey(ss + 1, 0)) else cur[ss] >= Start(b, PairKey(ss, 0)) - 1
  {
    hide Preds, Start, Pair;
    PairCount(b, ss, ss);
    StartMono(b, PairKey(ss, ss) + 1, PairKey(ss + 1, 0));
    StartMono(b, PairKey(ss, 0), PairKey(ss, ss));
  }

  /** No place of the stretch is in another big bucket. */
  lemma StretchApart(b: Block, ss: int, done: seq<bool>, up: bool, f: seq<int>, base: int, at: seq<int>, cur: seq<int>,
      m: int, M: int, M0: int,
                     other: seq<int>, c: int)
    requires Layout(b, ss, done, up, base, at) && Stretch(b, ss, up, f, base, at, cur, m, M, M0)
    requires Counts(b, ss, done, up, at, cur, Scanned(f, base, up, M)[..m], other)
    requires 0 <= c < 256 && c != ss && Inside(b, c, ss, cur[c])
    ensures forall i :: 0 <= i < M ==> At(base, up, i) != cur[c]
  {
    hide Good, Direct, Inside, Pair;
    OutsideBig(b, c, ss, cur[c]);
    FillMarkInBig(b, ss, done, up, base, at, cur, Scanned(f, base, up, M)[..m], other);
  }

  lemma WriteStretchElsewhere(b: Block, ss: int, done: seq<bool>, up: bool, f: seq<int>, base: int, at: seq<int>,
      cur: seq<int>, m: int, M: int, M0: int,
                              other: seq<int>, c: int, y: int)
    requires Layout(b, ss, done, up, base, at) && Stretch(b, ss, up, f, base, at, cur, m, M, M0) && m < M
    requires Counts(b, ss, done, up, at, cur, Scanned(f, base, up, M)[..m], other)
    requires 0 <= c < 256 && c != ss && Inside(b, c, ss, cur[c]) && 0 <= cur[c] < |f|
    requires 0 <= f[At(base, up, m)] < |b| && b[Back(|b|, f[At(base, up, m)], 1)] == c
    ensures Stretch(b, ss, up, f[cur[c] := y], base, at, Moved(cur, c, up), m + 1, M, M0)
    ensures Scanned(f[cur[c] := y], base, up, M) == Scanned(f, base, up, M)
  {
    hide Good, Direct, Inside, Pair, Start, Layout, Counts;
    var s := Scanned(f, base, up, M);
    StretchApart(b, ss, done, up, f, base, at, cur, m, M, M0, other, c);
    assert Scanned(f[cur[c] := y], base, up, M) == s;
    assert s[..m + 1][..m] == s[..m];
  }

  lemma WriteStretchHere(b: Block, ss: int, up: bool, f: seq<int>, base: int, at: seq<int>, cur: seq<int>, m: int,
      M: int, M0: int, y: int)
    requires Stretch(b, ss, up, f, base, at, cur, m, M, M0) && m < M
    requires 0 <= cur[ss] < |f|
    requires 0 <= f[At(base, up, m)] < |b| && y == Back(|b|, f[At(base, up, m)], 1) && b[y] == ss
    ensures Stretch(b, ss, up, f[cur[ss] := y], base, at, Moved(cur, ss, up), m + 1, M + 1, M0)
    ensures Scanned(f[cur[ss] := y], base, up, M + 1) == Scanned(f, base, up, M) + [y]
  {
    hide Good, Direct, Preds;
    var s, s' := Scanned(f, base, up, M), Scanned(f[cur[ss] := y], base, up, M + 1);
    assert s' == s + [y];
    GoodExtend(b, ss, up, s[..M0], s, m);
    assert s'[..M0] == s[..M0] && s'[..m + 1] == s[..m + 1];
  }

  /** Writing a predecessor at its fill mark. */
  lemma ScanWrite(b: Block, ss: int, done: seq<bool>, up: bool, f0: seq<int>, f: seq<int>, base: int, at: seq<int>,
      cur: seq<int>,
                  m: int, M: int, M0: int, other: seq<int>, y: int)
    requires ScanInv(b, ss, done, up, f0, f, base, at, cur, m, M, M0, other) && m < M && OtherSide(b, ss, up, other)
    requires 0 <= f[At(base, up, m)] < |b| && y == Back(|b|, f[At(base, up, m)], 1) && !done[b[y]]
    ensures 0 <= cur[b[y]] < |f|
    ensures ScanInv(b, ss, done, up, f0, f[cur[b[y]] := y], base, at, Moved(cur, b[y], up), m + 1, if b[y] == ss
                    then M + 1 else M, M0, other)
  {
    hide Good, Direct, Untouched, Counts, Placed, Preds, Pair, Inside, Layout, OtherSide;
    var s := Scanned(f, base, up, M);
    var src, x, c := s[..m], s[m], b[y];
    assert x == f[At(base, up, m)] && s[..m + 1] == src + [x];
    CountsFacts(b, ss, done, up, base, at, cur, src, other);
    Room(b, ss, up, s, m + 1, other, c);
    PredsNext(b, src, x, c);
    CellInBucket(b, ss, done, up, base, at, cur, src, other, y);
    WriteUntouched(b, ss, done, up, f0, f, cur, c, y);
    WritePlaced(b, ss, done, up, f, base, at, cur, src, other, x);
    WriteCounts(b, ss, done, up, at, cur, src, other, x);
    if c == ss {
      WriteStretchHere(b, ss, up, f, base, at, cur, m, M, M0, y);
      assert Scanned(f[cur[c] := y], base, up, M + 1)[..m + 1] == src + [x];
    } else {
      WriteStretchElsewhere(b, ss, done, up, f, base, at, cur, m, M, M0, other, c, y);
    }
  }

  lemma CountsFacts(b: Block, ss: int, done: seq<bool>, up: bool, base: int, at: seq<int>, cur: seq<int>, src: seq<int>,
      other: seq<int>)
    requires Layout(b, ss, done, up, base, at) && Counts(b, ss, done, up, at, cur, src, other)
    ensures |done| == |at| == |cur| == 256 && 0 <= ss < 256
  {
  }

  lemma PredsNext(b: Block, src: seq<int>, x: int, c: int)
    requires 0 <= x < |b| && b[Back(|b|, x, 1)] == c
    ensures |Preds(b, src + [x], c)| == |Preds(b, src, c)| + 1
  {
    assert (src + [x])[..|src|] == src;
  }
}
