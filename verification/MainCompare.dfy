/** The comparison of the main block sorter: twelve bytes, then bytes with
    cached quadrants, reading past the end of the block into the overshoot. */
module MainCompare {
  import opened Bits
  import opened Rotations

  const N_RADIX := 2
  const N_QSORT := 12
  const N_SHELL := 18
  const N_OVERSHOOT := N_RADIX + N_QSORT + N_SHELL + 2

  /** block holds b followed by a copy of its first bytes. */
  ghost predicate Overshot(b: Block, block: seq<Byte>) {
    && |b| > N_OVERSHOOT && |block| >= |b| + N_OVERSHOOT
    && block[..|b|] == b
    && (forall i :: 0 <= i < N_OVERSHOOT ==> block[|b| + i] == b[i])
  }

  /** Equal first bytes: a smaller quadrant means the rotation does not come later. */
  ghost predicate QuadrantsMean(b: Block, quadrant: seq<int>) {
    && |b| > N_OVERSHOOT && |quadrant| >= |b| + N_OVERSHOOT
    && (forall i :: 0 <= i < N_OVERSHOOT ==> quadrant[|b| + i] == quadrant[i])
    && (forall i, j :: 0 <= i < |b| && 0 <= j < |b| && b[i] == b[j] && quadrant[i] < quadrant[j] ==>
                         Cmp(b, i, j, |b|) <= 0)
  }

  /** A position in the block or its overshoot, taken round the cycle. */
  function Wrap(n: nat, i: nat): nat
    requires i < 2 * n
  {
    if i < n then i else i - n
  }

  /** A byte differs after e equal ones: that decides the order. */
  lemma Decided(b: Block, x: nat, y: nat, e: nat)
    requires x < |b| && y < |b| && e < |b|
    requires Cmp(b, x, y, e) == 0
    requires b[Fwd(|b|, x, e)] != b[Fwd(|b|, y, e)]
    ensures Cmp(b, x, y, |b|) == if b[Fwd(|b|, x, e)] < b[Fwd(|b|, y, e)] then -1 else 1
  {
    CmpSplit(b, x, y, e, 1);
    CmpExtend(b, x, y, e + 1, |b|);
  }

  /** Rotations that agree on e bytes are ordered as what follows is. */
  lemma Deferred(b: Block, x: nat, y: nat, e: nat)
    requires x < |b| && y < |b| && e <= |b|
    requires Cmp(b, x, y, e) == 0
    ensures Cmp(b, Fwd(|b|, x, e), Fwd(|b|, y, e), |b|) <= 0 ==> Cmp(b, x, y, |b|) <= 0
    ensures Cmp(b, Fwd(|b|, x, e), Fwd(|b|, y, e), |b|) >= 0 ==> Cmp(b, x, y, |b|) >= 0
  {
    var x', y' := Fwd(|b|, x, e), Fwd(|b|, y, e);
    CmpSplit(b, x, y, e, |b| - e);
    CmpExtend(b, x', y', |b| - e, |b|);
    CmpAnti(b, x', y', |b|);
    CmpAnti(b, x', y', |b| - e);
    CmpExtend(b, y', x', |b| - e, |b|);
  }

  lemma OneMore(b: Block, x: nat, y: nat, e: nat)
    requires x < |b| && y < |b| && e < |b|
    requires Cmp(b, x, y, e) == 0 && b[Fwd(|b|, x, e)] == b[Fwd(|b|, y, e)]
    ensures Cmp(b, x, y, e + 1) == 0
  {
    CmpSplit(b, x, y, e, 1);
  }

  /** The comparison has seen e equal bytes; once that is the whole block, it is over. */
  ghost predicate Agreed(b: Block, x: nat, y: nat, i1: nat, i2: nat, e: nat)
    requires x < |b| && y < |b| && i1 < 2 * |b| && i2 < 2 * |b|
  {
    if e <= |b| then Cmp(b, x, y, e) == 0 && Wrap(|b|, i1) == Fwd(|b|, x, e) && Wrap(|b|, i2) == Fwd(|b|, y, e)
    else Cmp(b, x, y, |b|) == 0
  }

  /** The answer is right whichever way ties fall. */
  ghost predicate Answer(b: Block, x: nat, y: nat, r: bool)
    requires x < |b| && y < |b|
  {
    if r then Cmp(b, x, y, |b|) >= 0 else Cmp(b, x, y, |b|) <= 0
  }

  lemma AgreedByte(b: Block, x: nat, y: nat, i1: nat, i2: nat, e: nat)
    requires x < |b| && y < |b| && i1 + 1 < 2 * |b| && i2 + 1 < 2 * |b|
    requires Agreed(b, x, y, i1, i2, e)
    ensures b[Wrap(|b|, i1)] == b[Wrap(|b|, i2)] ==> Agreed(b, x, y, i1 + 1, i2 + 1, e + 1)
    ensures b[Wrap(|b|, i1)] != b[Wrap(|b|, i2)] ==> Answer(b, x, y, b[Wrap(|b|, i1)] > b[Wrap(|b|, i2)])
  {
    if e < |b| {
      if b[Wrap(|b|, i1)] == b[Wrap(|b|, i2)] {
        OneMore(b, x, y, e);
      } else {
        Decided(b, x, y, e);
      }
    }
  }

  lemma AgreedQuadrant(b: Block, quadrant: seq<int>, x: nat, y: nat, i1: nat, i2: nat, e: nat)
    requires x < |b| && y < |b| && i1 < 2 * |b| && i2 < 2 * |b|
    requires Agreed(b, x, y, i1, i2, e) && QuadrantsMean(b, quadrant)
    requires b[Wrap(|b|, i1)] == b[Wrap(|b|, i2)] && quadrant[Wrap(|b|, i1)] != quadrant[Wrap(|b|, i2)]
    ensures Answer(b, x, y, quadrant[Wrap(|b|, i1)] > quadrant[Wrap(|b|, i2)])
  {
    if e <= |b| {
      Deferred(b, x, y, e);
      CmpAnti(b, Wrap(|b|, i1), Wrap(|b|, i2), |b|);
    }
  }

  /** Compares one byte; when it differs, the order is known. */
  method CompareByte(i1: nat, i2: nat, block: array<Byte>, ghost b: Block, ghost x: nat, ghost y: nat, ghost e: nat)
    returns (known: bool, r: bool)
    requires Overshot(b, block[..]) && x < |b| && y < |b|
    requires i1 < |b| + N_OVERSHOOT && i2 < |b| + N_OVERSHOOT
    requires Agreed(b, x, y, i1, i2, e)
    ensures known ==> Answer(b, x, y, r)
    ensures !known ==> b[Wrap(|b|, i1)] == b[Wrap(|b|, i2)] && Agreed(b, x, y, i1 + 1, i2 + 1, e + 1)
  {
    hide Agreed, Answer;
    AgreedByte(b, x, y, i1, i2, e);
    var c1, c2 := block[i1], block[i2];
    assert c1 == block[..][i1] == b[Wrap(|b|, i1)] && c2 == block[..][i2] == b[Wrap(|b|, i2)];
    known, r := c1 != c2, c1 > c2;
  }

  /** Compares one byte and then its quadrant. */
  method CompareQuadrant(i1: nat, i2: nat, block: array<Byte>, quadrant: array<int>, ghost b: Block, ghost x: nat,
      ghost y: nat, ghost e: nat)
    returns (known: bool, r: bool)
    requires Overshot(b, block[..]) && QuadrantsMean(b, quadrant[..]) && x < |b| && y < |b|
    requires i1 < |b| + N_OVERSHOOT && i2 < |b| + N_OVERSHOOT
    requires Agreed(b, x, y, i1, i2, e)
    ensures known ==> Answer(b, x, y, r)
    ensures !known ==> Agreed(b, x, y, i1 + 1, i2 + 1, e + 1)
  {
    hide Agreed, Answer, QuadrantsMean, Overshot;
    QuadrantRead(b, quadrant[..]);
    OvershotSize(b, block[..]);
    known, r := CompareByte(i1, i2, block, b, x, y, e);
    if known { return; }
    var s1, s2 := quadrant[i1], quadrant[i2];
    assert s1 == quadrant[..][i1] == quadrant[..][Wrap(|b|, i1)]
           && s2 == quadrant[..][i2] == quadrant[..][Wrap(|b|, i2)];
    if s1 != s2 {
      AgreedQuadrant(b, quadrant[..], x, y, i1, i2, e);
      return true, s1 > s2;
    }
  }

  /** No two rotations agree in their first twenty bytes: no comparison goes past its first round of eight. */
  ghost predicate Plain(b: Block) {
    forall x, y :: 0 <= x < |b| && 0 <= y < |b| && x != y ==> Cmp(b, x, y, 20) != 0
  }

  /** Is the rotation at i1 after the one at i2? All reads stay inside the overshoot, and the budget is spent
      on rotations that agree in twenty bytes only. */
  method MainGtU(i1_0: nat, i2_0: nat, block: array<Byte>, quadrant: array<int>, nblock: int, budget: int,
      ghost b: Block)
    returns (r: bool, budget': int)
    requires nblock == |b| && Overshot(b, block[..]) && QuadrantsMean(b, quadrant[..])
    requires i1_0 < nblock + 15 && i2_0 < nblock + 15
    ensures Answer(b, Wrap(nblock, i1_0), Wrap(nblock, i2_0), r)
    ensures budget' <= budget && (budget' < budget ==> Cmp(b, Wrap(nblock, i1_0), Wrap(nblock, i2_0), 20) == 0)
  {
    hide Cmp, QuadrantsMean, Agreed, Answer, Overshot;
    OvershotSize(b, block[..]);
    ghost var x, y := Wrap(nblock, i1_0), Wrap(nblock, i2_0);
    var i1: nat, i2: nat := i1_0, i2_0;
    budget' := budget;
    var known;
    AgreedStart(b, i1, i2);
    for t := 0 to 12
      invariant i1 == i1_0 + t && i2 == i2_0 + t
      invariant Agreed(b, x, y, i1, i2, t)
    {
      known, r := CompareByte(i1, i2, block, b, x, y, t);
      if known { return; }
      i1, i2 := i1 + 1, i2 + 1;
    }
    var k := nblock + 8;
    ghost var e := 12;
    while true
      invariant i1 < nblock + 27 && i2 < nblock + 27 && e + k == nblock + 20
      invariant k >= 0 && budget' <= budget && (e > 12 ==> Cmp(b, x, y, 20) == 0) && (e == 12 ==> budget' == budget)
      invariant Agreed(b, x, y, i1, i2, e)
      decreases k
    {
      ghost var j1, j2, e0 := i1, i2, e;
      for t := 0 to 8
        invariant i1 == j1 + t && i2 == j2 + t && e == e0 + t
        invariant Agreed(b, x, y, i1, i2, e)
      {
        known, r := CompareQuadrant(i1, i2, block, quadrant, b, x, y, e);
        if known { return; }
        i1, i2, e := i1 + 1, i2 + 1, e + 1;
      }
      if e == 20 { AgreedSoFar(b, x, y, i1, i2, e); }
      AgreedWrap(b, x, y, i1, i2, e);
      if i1 >= nblock { i1 := i1 - nblock; }
      if i2 >= nblock { i2 := i2 - nblock; }
      k := k - 8;
      budget' := budget' - 1;
      if k < 0 { break; }
    }
    AgreedEnd(b, x, y, i1, i2, e);
    r := false;
  }

  lemma AgreedSoFar(b: Block, x: nat, y: nat, i1: nat, i2: nat, e: nat)
    requires x < |b| && y < |b| && i1 < 2 * |b| && i2 < 2 * |b| && e <= |b| && Agreed(b, x, y, i1, i2, e)
    ensures Cmp(b, x, y, e) == 0
  {
  }

  lemma OvershotSize(b: Block, block: seq<Byte>)
    requires Overshot(b, block)
    ensures |b| > N_OVERSHOOT && |block| >= |b| + N_OVERSHOOT
  {
  }

  lemma QuadrantRead(b: Block, quadrant: seq<int>)
    requires QuadrantsMean(b, quadrant)
    ensures |quadrant| >= |b| + N_OVERSHOOT && |b| > N_OVERSHOOT
    ensures forall i: nat :: i < |b| + N_OVERSHOOT ==> quadrant[i] == quadrant[Wrap(|b|, i)]
  {
  }

  lemma AgreedStart(b: Block, i1: nat, i2: nat)
    requires i1 < 2 * |b| && i2 < 2 * |b|
    ensures Agreed(b, Wrap(|b|, i1), Wrap(|b|, i2), i1, i2, 0)
  {
  }

  lemma AgreedWrap(b: Block, x: nat, y: nat, i1: nat, i2: nat, e: nat)
    requires x < |b| && y < |b| && i1 < 2 * |b| && i2 < 2 * |b|
    requires Agreed(b, x, y, i1, i2, e)
    ensures Agreed(b, x, y, Wrap(|b|, i1), Wrap(|b|, i2), e)
    ensures Agreed(b, x, y, Wrap(|b|, i1), i2, e) && Agreed(b, x, y, i1, Wrap(|b|, i2), e)
  {
  }

  lemma AgreedEnd(b: Block, x: nat, y: nat, i1: nat, i2: nat, e: nat)
    requires x < |b| && y < |b| && i1 < 2 * |b| && i2 < 2 * |b| && e >= |b|
    requires Agreed(b, x, y, i1, i2, e)
    ensures Answer(b, x, y, false)
  {
  }
}
