/** The order the block sorters establish: rotations of a block, compared
    byte by byte on a prefix of h bytes. */
module Rotations {
  import opened Bits

  const MAX_BLOCK := 900000

  type Block = b: seq<Byte> | |b| > 0 witness [0]

  /** The position after i in a cycle of n positions. */
  function Step(n: nat, i: nat): nat
    requires i < n
  {
    if i + 1 == n then 0 else i + 1
  }

  /** h positions forward, at most once around. */
  function Fwd(n: nat, i: nat, h: nat): nat
    requires i < n && h <= n
  {
    if i + h < n then i + h else i + h - n
  }

  /** h positions back, at most once around. */
  function Back(n: nat, i: nat, h: nat): nat
    requires i < n && h <= n
  {
    if i < h then i - h + n else i - h
  }

  /** -1, 0 or 1 as the first h bytes of the rotation starting at i are below,
      equal to or above those of the rotation starting at j. */
  function Cmp(b: Block, i: nat, j: nat, h: nat): (r: int)
    requires i < |b| && j < |b|
    ensures -1 <= r <= 1
    decreases h
  {
    if h == 0 then 0
    else if b[i] < b[j] then -1
    else if b[i] > b[j] then 1
    else Cmp(b, Step(|b|, i), Step(|b|, j), h - 1)
  }

  lemma {:induction false} CmpSelf(b: Block, i: nat, h: nat)
    requires i < |b|
    ensures Cmp(b, i, i, h) == 0
    decreases h
  {
    if h > 0 { CmpSelf(b, Step(|b|, i), h - 1); }
  }

  lemma {:induction false} CmpAnti(b: Block, i: nat, j: nat, h: nat)
    requires i < |b| && j < |b|
    ensures Cmp(b, j, i, h) == -Cmp(b, i, j, h)
    decreases h
  {
    if h > 0 && b[i] == b[j] { CmpAnti(b, Step(|b|, i), Step(|b|, j), h - 1); }
  }

  lemma {:induction false} CmpTrans(b: Block, i: nat, j: nat, k: nat, h: nat)
    requires i < |b| && j < |b| && k < |b|
    requires Cmp(b, i, j, h) <= 0 && Cmp(b, j, k, h) <= 0
    ensures Cmp(b, i, k, h) <= 0
    ensures Cmp(b, i, j, h) < 0 || Cmp(b, j, k, h) < 0 ==> Cmp(b, i, k, h) < 0
    decreases h
  {
    if h > 0 && b[i] == b[j] == b[k] {
      CmpTrans(b, Step(|b|, i), Step(|b|, j), Step(|b|, k), h - 1);
    }
  }

  /** Comparing h1 + h2 bytes is comparing h1, then h2 more from h1 further on. */
  lemma {:induction false} CmpSplit(b: Block, i: nat, j: nat, h1: nat, h2: nat)
    requires i < |b| && j < |b| && h1 <= |b|
    ensures Cmp(b, i, j, h1 + h2) ==
            if Cmp(b, i, j, h1) != 0 then Cmp(b, i, j, h1)
            else Cmp(b, Fwd(|b|, i, h1), Fwd(|b|, j, h1), h2)
    decreases h1
  {
    if h1 > 0 && b[i] == b[j] {
      CmpSplit(b, Step(|b|, i), Step(|b|, j), h1 - 1, h2);
      assert Fwd(|b|, Step(|b|, i), h1 - 1) == Fwd(|b|, i, h1);
      assert Fwd(|b|, Step(|b|, j), h1 - 1) == Fwd(|b|, j, h1);
    }
  }

  /** A decided comparison stays decided on longer prefixes, and an order on a
      long prefix holds on every shorter one. */
  lemma {:induction false} CmpExtend(b: Block, i: nat, j: nat, h1: nat, h2: nat)
    requires i < |b| && j < |b| && h1 <= h2
    ensures Cmp(b, i, j, h1) != 0 ==> Cmp(b, i, j, h2) == Cmp(b, i, j, h1)
    ensures Cmp(b, i, j, h2) <= 0 ==> Cmp(b, i, j, h1) <= 0
    ensures Cmp(b, i, j, h2) == 0 ==> Cmp(b, i, j, h1) == 0
    decreases h1
  {
    if h1 > 0 && b[i] == b[j] {
      CmpExtend(b, Step(|b|, i), Step(|b|, j), h1 - 1, h2 - 1);
    }
  }

  /** s lists each of 0..n-1 once. */
  ghost predicate IsPerm(s: seq<int>, n: nat) {
    && |s| == n
    && (forall p :: 0 <= p < n ==> 0 <= s[p] < n)
    && (forall p, q :: 0 <= p < q < n ==> s[p] != s[q])
  }

  /** s[lo..hi] lists rotations in nondecreasing order of their first h bytes. */
  ghost predicate RotSorted(b: Block, s: seq<int>, lo: int, hi: int, h: nat)
    requires 0 <= lo <= hi <= |s|
    requires forall p :: lo <= p < hi ==> 0 <= s[p] < |b|
  {
    forall p, q :: lo <= p < q < hi ==> Cmp(b, s[p], s[q], h) <= 0
  }

  /** What the block sorters promise: every rotation once, in nondecreasing order. */
  ghost predicate SortedRotations(b: Block, s: seq<int>) {
    IsPerm(s, |b|) && RotSorted(b, s, 0, |b|, |b|)
  }
}
