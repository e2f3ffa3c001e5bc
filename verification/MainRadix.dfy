/** The two-byte radix sort that starts the main block sorter. */
module MainRadix {
  import opened Bits
  import opened Rotations
  import opened Permutations
  import opened Radix
  import opened MainCompare
  import opened ScanOrder

  /** Two bytes read backwards: the new byte goes on top, the old top moves down. */
  function ShiftIn(j: nat, c: Byte): nat {
    BitOr(OnTop(c), j / 256)
  }

  /** The byte at the top of the pair. */
  function OnTop(c: Byte): (j: nat)
    ensures j < 65536 && j / 256 == c
  {
    c * 256
  }

  lemma ShiftInKey(b: Block, j: nat, i: int)
    requires 0 <= i < |b| && j < 65536 && j / 256 == b[Step(|b|, i)]
    ensures ShiftIn(j, b[i]) == PairKeys(b)[i]
    ensures ShiftIn(j, b[i]) < 65536 && ShiftIn(j, b[i]) / 256 == b[i]
  {
    Pow2Constants();
    BitOrDisjoint(b[i], j / 256, 8);
  }

  lemma SuffixEqual(keys: seq<int>, i: int, v: int)
    requires 0 <= i < |keys|
    ensures Equal(keys[i..], v) == Equal(keys[i + 1..], v) + (if v == keys[i] then 1 else 0)
  {
    assert keys[i..][1..] == keys[i + 1..];
    EqualFirst(keys[i..], v);
  }

  /** Before item i the two bytes in hand are those at i + 1. */
  ghost predicate InHand(b: Block, j: nat, i: int) {
    j < 65536 && -1 <= i < |b| && (i >= 0 ==> j / 256 == b[Step(|b|, i)])
  }

  ghost predicate Counted(b: Block, tab: seq<int>, i: int) {
    |tab| == 65537 && 0 <= i <= |b| && forall v :: 0 <= v <= 65536 ==> tab[v] == Equal(PairKeys(b)[i..], v)
  }

  lemma CountedNext(b: Block, tab: seq<int>, i: int)
    requires 0 <= i < |b| && Counted(b, tab, i + 1)
    ensures 0 <= PairKeys(b)[i] < 65536
    ensures Counted(b, tab[PairKeys(b)[i] := tab[PairKeys(b)[i]] + 1], i)
  {
    var keys := PairKeys(b);
    forall v | 0 <= v <= 65536 ensures Equal(keys[i..], v) == Equal(keys[i + 1..], v)
      + (if v == keys[i] then 1 else 0) {
      SuffixEqual(keys, i, v);
    }
  }

  /** Counts the pair at i and clears its quadrant. */
  method CountPair(block: array<Byte>, quadrant: array<int>, ftab: array<int>, i: int, j0: nat, ghost b: Block)
    returns (j: nat)
    requires block as object != quadrant && block as object != ftab && quadrant != ftab
    requires 0 <= i < |b| <= block.Length && |b| <= quadrant.Length && block[..|b|] == b
    requires InHand(b, j0, i) && Counted(b, ftab[..], i + 1)
    modifies quadrant, ftab
    ensures InHand(b, j, i - 1) && Counted(b, ftab[..], i)
    ensures quadrant[i] == 0 && forall x :: 0 <= x < quadrant.Length && x != i ==> quadrant[x] == old(quadrant[x])
  {
    hide Counted, Equal, BitOr, PairKeys, ShiftIn;
    assert block[i] == b[i];
    ShiftInKey(b, j0, i);
    CountedNext(b, ftab[..], i);
    CountedSize(b, ftab[..], i + 1);
    ghost var t0 := ftab[..];
    quadrant[i] := 0;
    j := ShiftIn(j0, block[i]);
    ftab[j] := ftab[j] + 1;
    assert ftab[..] == t0[PairKeys(b)[i] := t0[PairKeys(b)[i]] + 1];
  }

  lemma CountedSize(b: Block, tab: seq<int>, i: int)
    requires Counted(b, tab, i)
    ensures |tab| == 65537
  {
  }

  /** Fills the two-byte frequency table, four pairs at a time. */
  method CountPairs(block: array<Byte>, quadrant: array<int>, ftab: array<int>, nblock: int, ghost b: Block)
    requires block as object != quadrant && block as object != ftab && quadrant != ftab
    requires nblock == |b| <= block.Length && nblock <= quadrant.Length && block[..nblock] == b && ftab.Length == 65537
    modifies quadrant, ftab
    ensures Counted(b, ftab[..], 0) && forall x :: 0 <= x < nblock ==> quadrant[x] == 0
  {
    hide Counted, Equal, BitOr;
    var z := 65536;
    while z >= 0
      invariant -1 <= z <= 65536 && forall v :: z < v <= 65536 ==> ftab[v] == 0
      invariant block[..nblock] == b
    {
      ftab[z] := 0;
      z := z - 1;
    }
    CountedStart(b, ftab[..]);
    var j: nat := OnTop(block[0]);
    var i := nblock - 1;
    while i >= 3
      invariant InHand(b, j, i) && Counted(b, ftab[..], i + 1) && block[..nblock] == b
      invariant forall x :: i < x < nblock ==> quadrant[x] == 0
    {
      j := CountPair(block, quadrant, ftab, i, j, b);
      j := CountPair(block, quadrant, ftab, i - 1, j, b);
      j := CountPair(block, quadrant, ftab, i - 2, j, b);
      j := CountPair(block, quadrant, ftab, i - 3, j, b);
      i := i - 4;
    }
    while i >= 0
      invariant InHand(b, j, i) && Counted(b, ftab[..], i + 1) && block[..nblock] == b
      invariant forall x :: i < x < nblock ==> quadrant[x] == 0
    {
      j := CountPair(block, quadrant, ftab, i, j, b);
      i := i - 1;
    }
  }

  lemma CountedStart(b: Block, tab: seq<int>)
    requires |tab| == 65537 && forall v :: 0 <= v <= 65536 ==> tab[v] == 0
    ensures Counted(b, tab, |b|)
  {
  }

  /** Frequencies become the ends of the small buckets. */
  method Accumulate(ftab: array<int>, ghost b: Block)
    requires Counted(b, ftab[..], 0)
    modifies ftab
    ensures ftab.Length == 65537 && forall v :: 0 <= v <= 65536 ==> ftab[v] == Below(PairKeys(b), v + 1)
  {
    ghost var keys := PairKeys(b);
    assert keys[0..] == keys;
    CountedSize(b, ftab[..], 0);
    assert forall v :: 0 <= v <= 65536 ==> ftab[..][v] == Equal(keys, v);
    hide Equal, Below, Counted;
    BelowEnds(keys, 65536);
    BelowNext(keys, 0);
    for i := 1 to 65537
      invariant forall v :: 0 <= v < i ==> ftab[v] == Below(keys, v + 1)
      invariant forall v :: i <= v <= 65536 ==> ftab[v] == Equal(keys, v)
    {
      BelowNext(keys, i);
      ftab[i] := ftab[i] + ftab[i - 1];
    }
  }

  /** The items from i on have been placed. */
  ghost predicate Distributed(b: Block, f: seq<int>, tab: seq<int>, i: int) {
    && 0 <= i <= |b| && |tab| == 65537
    && Placing(PairKeys(b), f, tab, ItemsFrom(|b|, i), 65537)
    && (forall v :: 0 <= v <= 65536 ==> tab[v] == Below(PairKeys(b), v) + Equal(PairKeys(b)[..i], v))
  }

  ghost function ItemsFrom(n: nat, i: nat): (s: set<int>)
    ensures forall x :: x in s <==> i <= x < n
  {
    set x | x in UpTo(n) && i <= x
  }

  lemma DistributedStart(b: Block, f: seq<int>, tab: seq<int>)
    requires |f| == |b| && |tab| == 65537 && forall v :: 0 <= v <= 65536 ==> tab[v] == Below(PairKeys(b), v + 1)
    ensures Distributed(b, f, tab, |b|)
  {
    var keys := PairKeys(b);
    assert keys[..|b|] == keys;
    forall v | 0 <= v <= 65536 ensures tab[v] == Below(keys, v) + Equal(keys[..|b|], v) { BelowNext(keys, v); }
    PlacingStart(keys, f, tab, 65537);
    assert ItemsFrom(|b|, |b|) == {};
  }

  lemma DistributedNext(b: Block, f: seq<int>, tab: seq<int>, i: int)
    requires 0 <= i < |b| && Distributed(b, f, tab, i + 1)
    ensures var v := PairKeys(b)[i];
            0 <= v < 65536 && 0 <= tab[v] - 1 < |f| == |b|
            && Distributed(b, f[tab[v] - 1 := i], tab[v := tab[v] - 1], i)
  {
    hide Placing, Below;
    var keys, v0 := PairKeys(b), PairKeys(b)[i];
    assert keys[..i + 1][..i] == keys[..i];
    var done := ItemsFrom(|b|, i + 1);
    PlacingRoom(keys, f, tab, done, 65537, v0);
    PlacingSizes(keys, f, tab, done, 65537);
    PlaceOne(keys, f, tab, done, 65537, i);
    assert done + {i} == ItemsFrom(|b|, i);
  }

  lemma PlacingSizes(keys: seq<int>, f: seq<int>, tab: seq<int>, done: set<int>, top: int)
    requires Placing(keys, f, tab, done, top)
    ensures |f| == |keys|
  {
  }

  lemma DistributedEnd(b: Block, f: seq<int>, tab: seq<int>)
    requires Distributed(b, f, tab, 0)
    ensures |tab| == 65537 && forall v :: 0 <= v <= 65536 ==> tab[v] == Start(b, v)
    ensures IsPerm(f, |b|) && Bucketed(PairKeys(b), f, 65536)
  {
    PlacingDone(PairKeys(b), f, tab, ItemsFrom(|b|, 0), 65537);
  }

  /** Puts rotation i in the last free place of its small bucket. */
  method PlacePair(ptr: array<int>, block: array<Byte>, ftab: array<int>, i: int, s0: nat, ghost b: Block)
    returns (s: nat)
    requires block as object != ptr && block as object != ftab && ptr != ftab
    requires 0 <= i < |b| <= block.Length && |b| == ptr.Length && block[..|b|] == b
    requires InHand(b, s0, i) && Distributed(b, ptr[..], ftab[..], i + 1)
    modifies ptr, ftab
    ensures InHand(b, s, i - 1) && Distributed(b, ptr[..], ftab[..], i)
  {
    hide Distributed, BitOr, PairKeys, ShiftIn;
    assert block[i] == b[i];
    ShiftInKey(b, s0, i);
    DistributedNext(b, ptr[..], ftab[..], i);
    DistributedSize(b, ptr[..], ftab[..], i + 1);
    ghost var f0, t0 := ptr[..], ftab[..];
    s := ShiftIn(s0, block[i]);
    var j := ftab[s] - 1;
    ftab[s] := j;
    ptr[j] := i;
    assert ftab[..] == t0[s := t0[s] - 1] && ptr[..] == f0[t0[s] - 1 := i];
  }

  lemma DistributedSize(b: Block, f: seq<int>, tab: seq<int>, i: int)
    requires Distributed(b, f, tab, i)
    ensures |tab| == 65537
  {
  }

  /** Lists the rotations by their first two bytes; ftab becomes the table of bucket starts. */
  method InitialSort(ptr: array<int>, block: array<Byte>, quadrant: array<int>, ftab: array<int>, nblock: int,
      ghost b: Block)
    requires block as object != ptr && block as object != ftab && ptr != ftab && block as object != quadrant
             && quadrant != ftab && quadrant != ptr
    requires nblock == |b| == ptr.Length && N_OVERSHOOT < nblock && nblock + N_OVERSHOOT <= block.Length
             && nblock + N_OVERSHOOT <= quadrant.Length
    requires block[..nblock] == b && ftab.Length == 65537
    modifies ptr, block, quadrant, ftab
    ensures Overshot(b, block[..]) && forall x :: 0 <= x < nblock + N_OVERSHOOT ==> quadrant[x] == 0
    ensures IsPerm(ptr[..], nblock) && Bucketed(PairKeys(b), ptr[..], 65536)
    ensures forall v :: 0 <= v <= 65536 ==> ftab[v] == Start(b, v)
  {
    hide Counted, Distributed, BitOr, IsPerm, Bucketed, Below;
    CountPairs(block, quadrant, ftab, nblock, b);
    for i := 0 to N_OVERSHOOT
      invariant block[..nblock] == b && Counted(b, ftab[..], 0)
      invariant forall x :: 0 <= x < nblock + i ==> quadrant[x] == 0
      invariant forall x :: 0 <= x < i ==> block[nblock + x] == b[x]
    {
      block[nblock + i] := block[i];
      quadrant[nblock + i] := 0;
    }
    assert Overshot(b, block[..]);
    hide Overshot;
    Accumulate(ftab, b);
    DistributedStart(b, ptr[..], ftab[..]);
    var s: nat := OnTop(block[0]);
    var i := nblock - 1;
    while i >= 3
      invariant InHand(b, s, i) && Distributed(b, ptr[..], ftab[..], i + 1) && block[..nblock] == b
                && Overshot(b, block[..])
      invariant forall x :: 0 <= x < nblock + N_OVERSHOOT ==> quadrant[x] == 0
    {
      s := PlacePair(ptr, block, ftab, i, s, b);
      s := PlacePair(ptr, block, ftab, i - 1, s, b);
      s := PlacePair(ptr, block, ftab, i - 2, s, b);
      s := PlacePair(ptr, block, ftab, i - 3, s, b);
      i := i - 4;
    }
    while i >= 0
      invariant InHand(b, s, i) && Distributed(b, ptr[..], ftab[..], i + 1) && block[..nblock] == b
                && Overshot(b, block[..])
      invariant forall x :: 0 <= x < nblock + N_OVERSHOOT ==> quadrant[x] == 0
    {
      s := PlacePair(ptr, block, ftab, i, s, b);
      i := i - 1;
    }
    DistributedEnd(b, ptr[..], ftab[..]);
    assert forall v :: 0 <= v <= 65536 ==> ftab[v] == ftab[..][v];
  }
}
