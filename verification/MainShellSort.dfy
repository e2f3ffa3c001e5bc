/** Sorting one small bucket of the main block sorter by shell sort, within a
    budget of comparisons. */
module MainShellSort {
  import opened Bits
  import opened Rotations
  import opened Segments
  import opened Partitioning
  import opened RotationRank
  import opened MainCompare

  const INCS: seq<int> := [1, 4, 13, 40, 121, 364, 1093, 3280, 9841, 29524, 88573, 265720, 797161, 2391484]

  /** f[lo..hi] lists rotations that agree on their first d bytes. */
  ghost predicate DepthEqual(b: Block, f: seq<int>, lo: int, hi: int, d: nat) {
    && Indexes(f, lo, hi + 1, |b|)
    && (forall p, q :: lo <= p <= hi && lo <= q <= hi ==> Cmp(b, f[p], f[q], d) == 0)
  }

  lemma DepthEqualPart(b: Block, f1: seq<int>, f0: seq<int>, a: int, c: int, lo: int, hi: int, d: nat)
    requires SamePart(f1, f0, a, c + 1) && lo <= a && c <= hi && DepthEqual(b, f0, lo, hi, d)
    ensures DepthEqual(b, f1, lo, hi, d)
  {
    IndexesPart(f1, f0, a, c + 1, lo, hi + 1, |b|);
    forall p, q | lo <= p <= hi && lo <= q <= hi ensures Cmp(b, f1[p], f1[q], d) == 0 {
      var p0, q0 := p, q;
      if a <= p <= c { p0 := SamePartOrigin(f1, f0, a, c + 1, p); }
      if a <= q <= c { q0 := SamePartOrigin(f1, f0, a, c + 1, q); }
    }
  }

  /** The comparison d bytes further on orders the rotations by rank. */
  lemma AnswerRanks(b: Block, x: nat, y: nat, d: nat, r: bool)
    requires x < |b| && y < |b| && d <= |b|
    requires Cmp(b, x, y, d) == 0
    requires Answer(b, Wrap(|b|, x + d), Wrap(|b|, y + d), r)
    ensures if r then Ranks(b)[x] >= Ranks(b)[y] else Ranks(b)[x] <= Ranks(b)[y]
  {
    Deferred(b, x, y, d);
    RankOrder(b, x, y);
    RankOrder(b, y, x);
    CmpAnti(b, x, y, |b|);
  }

  /** f is f0 with f0[i] moved down to position s. */
  lemma InsertedSortedUp(key: seq<int>, f0: seq<int>, f: seq<int>, lo: int, s: int, i: int)
    requires 0 <= lo <= s <= i < |f| == |f0|
    requires Indexes(f, lo, i + 1, |key|)
    requires KeySorted(key, f0, lo, i) && 0 <= f0[i] < |key|
    requires f[s] == f0[i]
    requires forall p :: lo <= p < s ==> f[p] == f0[p]
    requires forall p :: s < p <= i ==> f[p] == f0[p - 1] && key[f0[i]] <= key[f[p]]
    requires lo < s ==> key[f0[s - 1]] <= key[f0[i]]
    ensures KeySorted(key, f, lo, i + 1)
  {
    forall p, q | lo <= p < q < i + 1 ensures key[f[p]] <= key[f[q]] {
      if p < s { assert key[f0[p]] <= key[f0[s - 1]]; }
    }
  }

  /** What a sort of ptr[lo..hi] needs of its surroundings. */
  ghost predicate Setting(b: Block, block: seq<Byte>, quadrant: seq<int>, nblock: int) {
    nblock == |b| && Overshot(b, block) && QuadrantsMean(b, quadrant)
  }

  /** Part way through an insertion: v belongs in slot j or below. */
  ghost predicate Shifting(b: Block, f: seq<int>, f0: seq<int>, lo: int, i: int, j: int, v: int, d: nat, h: int) {
    && |f| == |f0| && 0 <= lo <= j <= i < |f| && 0 <= v < |b| && f0[i] == v
    && SamePart(f[j := v], f0, lo, i + 1)
    && (forall p :: lo <= p <= i ==> 0 <= f[p] < |b| && Cmp(b, f[p], v, d) == 0)
    && (h == 1 ==> forall p :: lo <= p < j ==> f[p] == f0[p])
    && (h == 1 ==> forall p :: j < p <= i ==> f[p] == f0[p - 1] && Ranks(b)[v] <= Ranks(b)[f[p]])
  }

  lemma ShiftStart(b: Block, f: seq<int>, lo: int, i: int, d: nat, h: int)
    requires 0 <= lo <= i < |f| && DepthEqual(b, f, lo, i, d)
    ensures 0 <= f[i] < |b| && Shifting(b, f, f, lo, i, i, f[i], d, h)
  {
    SamePartSelf(f, lo, i + 1);
    assert f[i := f[i]] == f;
  }

  lemma ShiftStep(b: Block, f: seq<int>, f0: seq<int>, lo: int, i: int, j: int, v: int, d: nat, h: int)
    requires Shifting(b, f, f0, lo, i, j, v, d, h) && 1 <= h && lo <= j - h
    requires Ranks(b)[v] <= Ranks(b)[f[j - h]]
    ensures Shifting(b, f[j := f[j - h]], f0, lo, i, j - h, v, d, h)
  {
    hide SamePart, Ranks, Cmp;
    SlotMoves(f, f0, j, j - h, v, lo, i + 1);
  }

  lemma ShiftFacts(b: Block, f: seq<int>, f0: seq<int>, lo: int, i: int, j: int, v: int, d: nat, h: int)
    requires Shifting(b, f, f0, lo, i, j, v, d, h)
    ensures |f| == |f0| && 0 <= lo <= j <= i < |f| && 0 <= v < |b|
    ensures forall p :: lo <= p <= i ==> 0 <= f[p] < |b| && Cmp(b, f[p], v, d) == 0
  {
  }

  lemma ShiftEnd(b: Block, f: seq<int>, f0: seq<int>, lo: int, i: int, j: int, v: int, d: nat, h: int)
    requires Shifting(b, f, f0, lo, i, j, v, d, h) && 1 <= h
    requires lo <= j - h ==> Ranks(b)[f[j - h]] <= Ranks(b)[v]
    ensures SamePart(f[j := v], f0, lo, i + 1)
    ensures h == 1 && KeySorted(Ranks(b), f0, lo, i) ==> KeySorted(Ranks(b), f[j := v], lo, i + 1)
  {
    hide SamePart, Ranks, Cmp;
    if h == 1 && KeySorted(Ranks(b), f0, lo, i) {
      InsertedSortedUp(Ranks(b), f0, f[j := v], lo, j, i);
    }
  }

  /** The two that are compared are different, so that they do not agree for long in a plain block. */
  lemma NotAlike(b: Block, f: seq<int>, f0: seq<int>, lo: int, i: int, j: int, v: int, d: nat, h: int)
    requires Shifting(b, f, f0, lo, i, j, v, d, h) && 1 <= h && lo <= j - h && d <= |b|
    ensures 0 <= f[j - h] < |b|
    ensures Plain(b) && Apart(f0, lo, i + 1) ==> Cmp(b, Wrap(|b|, f[j - h] + d), Wrap(|b|, v + d), 20) != 0
  {
    hide Cmp, Ranks, SamePart;
    if Plain(b) && Apart(f0, lo, i + 1) {
      ApartPart(f[j := v], f0, lo, i + 1);
      assert f[j := v][j - h] != f[j := v][j];
    }
  }

  /** Inserts ptr[i] into the run ..., ptr[i - 2 * h], ptr[i - h] that starts at lo or after. */
  method InsertUp(ptr: array<int>, block: array<Byte>, quadrant: array<int>, nblock: int, lo: int, i: int, d: int,
      h: int, budget: int, ghost b: Block)
    returns (budget': int)
    requires ptr != quadrant && ptr as object != block && ptr.Length == nblock
    requires Setting(b, block[..], quadrant[..], nblock)
    requires 1 <= h && 0 <= lo && lo + h <= i < nblock && 0 <= d <= 15
    requires DepthEqual(b, ptr[..], lo, i, d)
    modifies ptr
    ensures SamePart(ptr[..], old(ptr[..]), lo, i + 1)
    ensures h == 1 && KeySorted(Ranks(b), old(ptr[..]), lo, i) ==> KeySorted(Ranks(b), ptr[..], lo, i + 1)
    ensures budget' <= budget && (Plain(b) && Apart(old(ptr[..]), lo, i + 1) ==> budget' == budget)
  {
    hide SamePart, KeySorted, Ranks, Overshot, QuadrantsMean, Answer, Cmp, Shifting, DepthEqual, Plain, Apart;
    OvershotSize(b, block[..]);
    ghost var f0 := ptr[..];
    ShiftStart(b, f0, lo, i, d, h);
    budget' := budget;
    var v := ptr[i];
    var j := i;
    while true
      invariant lo + h <= j <= i
      invariant Shifting(b, ptr[..], f0, lo, i, j, v, d, h)
      invariant budget' <= budget && (Plain(b) && Apart(f0, lo, i + 1) ==> budget' == budget)
      decreases j
    {
      ShiftFacts(b, ptr[..], f0, lo, i, j, v, d, h);
      var r;
      r, budget' := MainGtU(ptr[j - h] + d, v + d, block, quadrant, nblock, budget', b);
      AnswerRanks(b, ptr[j - h], v, d, r);
      NotAlike(b, ptr[..], f0, lo, i, j, v, d, h);
      if !r { break; }
      ShiftStep(b, ptr[..], f0, lo, i, j, v, d, h);
      ptr[j] := ptr[j - h];
      j := j - h;
      if j <= lo + h - 1 { break; }
    }
    ShiftFacts(b, ptr[..], f0, lo, i, j, v, d, h);
    ShiftEnd(b, ptr[..], f0, lo, i, j, v, d, h);
    ptr[j] := v;
  }

  lemma DepthEqualNarrow(b: Block, f: seq<int>, lo: int, hi: int, lo': int, hi': int, d: nat)
    requires DepthEqual(b, f, lo, hi, d) && lo <= lo' <= hi' + 1 && hi' <= hi
    ensures DepthEqual(b, f, lo', hi', d)
  {
  }

  lemma InsertUpDone(b: Block, f2: seq<int>, f1: seq<int>, f0: seq<int>, lo: int, i: int, hi: int, d: nat)
    requires i <= hi && SamePart(f2, f1, lo, i + 1) && SamePart(f1, f0, lo, hi + 1) && DepthEqual(b, f1, lo, hi, d)
    ensures SamePart(f2, f0, lo, hi + 1) && DepthEqual(b, f2, lo, hi, d)
  {
    DepthEqualPart(b, f2, f1, lo, i, lo, hi, d);
    SamePartWiden(f2, f1, lo, i + 1, lo, hi + 1);
    SamePartTrans(f2, f1, f0, lo, hi + 1);
  }

  lemma SortedOne(b: Block, f: seq<int>, lo: int, hi: int, d: nat, e: int)
    requires DepthEqual(b, f, lo, hi, d) && lo <= e <= hi + 1 && e <= lo + 1
    ensures KeySorted(Ranks(b), f, lo, e)
  {
  }

  /** A rearranged segment has no element twice in any part of it, if it had none before. */
  lemma StillApart(f: seq<int>, f0: seq<int>, lo: int, hi: int, lo': int, hi': int)
    requires SamePart(f, f0, lo, hi) && lo <= lo' <= hi' <= hi
    ensures Apart(f0, lo, hi) ==> Apart(f, lo', hi')
  {
    hide SamePart;
    SamePartOutside(f, f0, lo, hi);
    if Apart(f0, lo, hi) { ApartPart(f, f0, lo, hi); }
  }

  /** One pass with increment h; only the pass with h == 1 sorts. */
  method ShellPass(ptr: array<int>, block: array<Byte>, quadrant: array<int>, nblock: int, lo: int, hi: int, d: int,
      h: int, budget: int, ghost b: Block)
    returns (budget': int, abandoned: bool)
    requires ptr != quadrant && ptr as object != block && ptr.Length == nblock
    requires Setting(b, block[..], quadrant[..], nblock)
    requires 1 <= h && 0 <= lo < hi < nblock && 0 <= d <= 15
    requires DepthEqual(b, ptr[..], lo, hi, d)
    modifies ptr
    ensures SamePart(ptr[..], old(ptr[..]), lo, hi + 1) && DepthEqual(b, ptr[..], lo, hi, d)
    ensures abandoned ==> budget' < 0
    ensures !abandoned && h == 1 ==> KeySorted(Ranks(b), ptr[..], lo, hi + 1)
    ensures budget' <= budget && (Plain(b) && Apart(old(ptr[..]), lo, hi + 1) ==> budget' == budget)
  {
    hide SamePart, KeySorted, Ranks, Setting, DepthEqual, Plain, Apart;
    ghost var f0, key := ptr[..], Ranks(b);
    SamePartSelf(f0, lo, hi + 1);
    budget', abandoned := budget, false;
    var i := lo + h;
    if h == 1 { SortedOne(b, f0, lo, hi, d, i); }
    label inserting:
    while true
      invariant lo + h <= i && (i <= hi + 1 || i == lo + h)
      invariant SamePart(ptr[..], f0, lo, hi + 1) && DepthEqual(b, ptr[..], lo, hi, d)
      invariant h == 1 ==> KeySorted(key, ptr[..], lo, i)
      invariant budget' <= budget && (Plain(b) && Apart(f0, lo, hi + 1) ==> budget' == budget)
      decreases hi - i
    {
      ghost var i0 := i;
      for copy := 0 to 3  // the insertion is written out three times before the budget is looked at
        invariant i == i0 + copy && lo + h <= i && (i <= hi + 1 || i == lo + h)
        invariant SamePart(ptr[..], f0, lo, hi + 1) && DepthEqual(b, ptr[..], lo, hi, d)
        invariant h == 1 ==> KeySorted(key, ptr[..], lo, i)
        invariant budget' <= budget && (Plain(b) && Apart(f0, lo, hi + 1) ==> budget' == budget)
      {
        if i > hi { break inserting; }
        ghost var f1 := ptr[..];
        DepthEqualNarrow(b, f1, lo, hi, lo, i, d);
        StillApart(f1, f0, lo, hi + 1, lo, i + 1);
        budget' := InsertUp(ptr, block, quadrant, nblock, lo, i, d, h, budget', b);
        InsertUpDone(b, ptr[..], f1, f0, lo, i, hi, d);
        i := i + 1;
      }
      if budget' < 0 { return budget', true; }
    }
  }

  /** Shell sort of ptr[lo..hi]; gives up when the budget has run out. */
  method MainSimpleSort(ptr: array<int>, block: array<Byte>, quadrant: array<int>, nblock: int, lo: int, hi: int,
      d: int, budget: int, ghost b: Block)
    returns (budget': int)
    requires ptr != quadrant && ptr as object != block && ptr.Length == nblock < 2391484
    requires Setting(b, block[..], quadrant[..], nblock)
    requires 0 <= lo <= hi + 1 <= nblock && 0 <= d <= 15
    requires DepthEqual(b, ptr[..], lo, hi, d)
    modifies ptr
    ensures SamePart(ptr[..], old(ptr[..]), lo, hi + 1) && DepthEqual(b, ptr[..], lo, hi, d)
    ensures budget' >= 0 ==> KeySorted(Ranks(b), ptr[..], lo, hi + 1)
    ensures budget' <= budget && (Plain(b) && Apart(old(ptr[..]), lo, hi + 1) ==> budget' == budget)
  {
    hide SamePart, KeySorted, Ranks, Setting, DepthEqual, Plain, Apart;
    ghost var f0 := ptr[..];
    SamePartSelf(f0, lo, hi + 1);
    budget' := budget;
    var bigN := hi - lo + 1;
    if bigN < 2 {
      SortedOne(b, f0, lo, hi, d, hi + 1);
      return;
    }
    var hp := 0;
    while INCS[hp] < bigN
      invariant 0 <= hp < 14 && (hp > 0 ==> INCS[hp - 1] < bigN)
      decreases 14 - hp
    {
      assert INCS[13] == 2391484;
      hp := hp + 1;
    }
    hp := hp - 1;
    while hp >= 0
      invariant -1 <= hp < 13
      invariant SamePart(ptr[..], f0, lo, hi + 1) && DepthEqual(b, ptr[..], lo, hi, d)
      invariant hp == -1 ==> KeySorted(Ranks(b), ptr[..], lo, hi + 1)
      invariant budget' <= budget && (Plain(b) && Apart(f0, lo, hi + 1) ==> budget' == budget)
      decreases hp
    {
      var h := INCS[hp];
      ghost var f1 := ptr[..];
      var abandoned;
      StillApart(f1, f0, lo, hi + 1, lo, hi + 1);
      budget', abandoned := ShellPass(ptr, block, quadrant, nblock, lo, hi, d, h, budget', b);
      SamePartTrans(ptr[..], f1, f0, lo, hi + 1);
      if abandoned { return; }
      hp := hp - 1;
    }
  }
}
