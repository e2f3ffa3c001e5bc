/** Rebuilding the block from the last column: the fast walk over a 32-bit table and
    the small one over 20-bit pointers reversed in place. */
module BwtInverse {
  import opened Bits
  import opened Rotations
  import opened Permutations
  import opened Radix
  import opened BwtTheory

  /** Byte counts become bucket starts. */
  method BuildStarts(unzftab: array<int>, cftab: array<int>, ghost keys: seq<int>)
    requires unzftab != cftab && unzftab.Length == 256 && cftab.Length == 257
    requires forall i :: 0 <= i < |keys| ==> 0 <= keys[i] < 256
    requires forall v :: 0 <= v < 256 ==> unzftab[v] == Equal(keys, v)
    modifies cftab
    ensures forall v :: 0 <= v <= 256 ==> cftab[v] == Below(keys, v)
  {
    hide Below, Equal;
    BelowEnds(keys, 256);
    cftab[0] := 0;
    for i := 1 to 257
      invariant cftab[0] == 0 && forall v :: 1 <= v < i ==> cftab[v] == Equal(keys, v - 1)
    {
      cftab[i] := unzftab[i - 1];
    }
    for i := 1 to 257
      invariant forall v :: 0 <= v < i ==> cftab[v] == Below(keys, v)
      invariant forall v :: i <= v <= 256 ==> cftab[v] == Equal(keys, v - 1)
    {
      BelowNext(keys, i - 1);
      cftab[i] := cftab[i] + cftab[i - 1];
    }
  }

  /** Items before i have been counted off. */
  ghost predicate CountedOff(keys: seq<int>, tab: seq<int>, i: int) {
    0 <= i <= |keys| && |tab| >= 256 && forall v :: 0 <= v < 256 ==> tab[v] == Below(keys, v) + Equal(keys[..i], v)
  }

  lemma CountNext(keys: seq<int>, tab: seq<int>, i: int)
    requires CountedOff(keys, tab, i) && i < |keys| && 0 <= keys[i] < 256
    ensures tab[keys[i]] == Slot(keys, i)
    ensures CountedOff(keys, tab[keys[i] := tab[keys[i]] + 1], i + 1)
  {
    assert keys[..i + 1][..i] == keys[..i];
  }

  lemma CountStart(keys: seq<int>, tab: seq<int>)
    requires |tab| >= 256 && forall v :: 0 <= v < 256 ==> tab[v] == Below(keys, v)
    ensures CountedOff(keys, tab, 0)
  {
  }

  // ---- fast ----

  function Packed(c: int, i: int): int { i * 256 + c }

  /** Each slot filled so far holds its byte and, above it, the item it came from. */
  ghost predicate Filling(keys: seq<int>, tt: seq<int>, i: int) {
    && |tt| >= |keys| && 0 <= i <= |keys|
    && (forall k :: 0 <= k < |keys| ==> 0 <= Slot(keys, k) < |keys|)
    && (forall k :: 0 <= k < i ==> tt[Slot(keys, k)] == Packed(keys[Slot(keys, k)], k))
    && (forall k :: i <= k < |keys| ==> tt[Slot(keys, k)] == keys[Slot(keys, k)])
    && (forall q :: 0 <= q < |keys| ==> 0 <= keys[q] < 256 && tt[q] % 256 == keys[q])
  }

  lemma FillStart(keys: seq<int>, tt: seq<int>)
    requires |tt| >= |keys| && forall q :: 0 <= q < |keys| ==> tt[q] == keys[q] && 0 <= keys[q] < 256
    ensures Filling(keys, tt, 0)
  {
    forall k | 0 <= k < |keys| ensures 0 <= Slot(keys, k) < |keys| { SlotBounds(keys, k); }
  }

  lemma FillNext(keys: seq<int>, tt: seq<int>, i: int)
    requires Filling(keys, tt, i) && i < |keys|
    ensures 0 <= Slot(keys, i) < |tt| && tt[Slot(keys, i)] == keys[Slot(keys, i)] && 0 <= keys[Slot(keys, i)] < 256
    ensures Filling(keys, tt[Slot(keys, i) := Packed(keys[Slot(keys, i)], i)], i + 1)
  {
    hide Slot;
    SlotsPerm(keys);
    assert forall k :: 0 <= k < |keys| ==> Slots(keys)[k] == Slot(keys, k);
    forall k | 0 <= k < |keys| && k != i ensures Slot(keys, k) != Slot(keys, i) { }
  }

  lemma FillByte(keys: seq<int>, tt: seq<int>, i: int)
    requires Filling(keys, tt, i) && i < |keys|
    ensures |tt| >= |keys| && tt[i] % 256 == keys[i] && 0 <= keys[i] < 256
  {
  }

  /** The walk stands where the next byte it yields is b[x]. */
  ghost predicate FastWalk(b: Block, f: seq<int>, tt: seq<int>, tPos: int, x: int) {
    && SortedRotations(b, f) && Filling(LastColumn(b, f), tt, |b|)
    && 0 <= x < |b| && 0 <= tPos < |b| && Same(b, f[tPos], Step(|b|, x))
  }

  /** What stands at a slot: the byte before it and the slot that follows it. */
  lemma FastSlot(b: Block, f: seq<int>, tt: seq<int>, q: int, x: int)
    requires SortedRotations(b, f) && Filling(LastColumn(b, f), tt, |b|) && 0 <= q < |b| && Same(b, f[q], x)
    ensures 0 <= tt[q] / 256 < |b| && tt[q] % 256 == LastColumn(b, f)[q]
    ensures Same(b, f[tt[q] / 256], Step(|b|, x))
  {
    hide RotSorted, Slot, Same, Cmp;
    var l := LastColumn(b, f);
    SlotsPerm(l);
    var k := PermSurjective(Slots(l), |b|, q);
    assert q == Slot(l, k);
    assert tt[q] == Packed(l[q], k) && tt[q] / 256 == k;
    FollowingSlot(b, f, k, x);
  }

  lemma FastStep(b: Block, f: seq<int>, tt: seq<int>, tPos: int, x: int)
    requires FastWalk(b, f, tt, tPos, x)
    ensures |tt| > tPos >= 0 && tt[tPos] % 256 == b[x]
    ensures FastWalk(b, f, tt, tt[tPos] / 256, Step(|b|, x))
  {
    hide RotSorted, Filling, Cmp;
    FastSlot(b, f, tt, tPos, Step(|b|, x));
    SameMoves(b, f[tPos], Step(|b|, x));
    assert Back(|b|, Step(|b|, x), 1) == x;
    FillingSize(LastColumn(b, f), tt, |b|);
  }

  lemma FillingSize(keys: seq<int>, tt: seq<int>, i: int)
    requires Filling(keys, tt, i)
    ensures |tt| >= |keys|
  {
  }

  method BuildFast(tt: array<Word>, cftab: array<int>, nblock: int, ghost keys: seq<int>)
    requires tt as object != cftab && nblock == |keys| <= MAX_BLOCK && nblock <= tt.Length && cftab.Length == 257
    requires forall q :: 0 <= q < |keys| ==> tt[q] == keys[q] && 0 <= keys[q] < 256
    requires forall v :: 0 <= v < 256 ==> cftab[v] == Below(keys, v)
    modifies tt, cftab
    ensures Filling(keys, tt[..], nblock)
  {
    hide Filling, CountedOff, Below, Equal, Slot, BitOr;
    FillStart(keys, tt[..]);
    CountStart(keys, cftab[..]);
    for i := 0 to nblock
      invariant Filling(keys, tt[..], i) && CountedOff(keys, cftab[..], i)
    {
      ghost var t0, c0 := tt[..], cftab[..];
      FillByte(keys, t0, i);
      CountNext(keys, c0, i);
      FillNext(keys, t0, i);
      assert tt[i] == t0[i];
      var uc := tt[i] % 256;
      assert tt[cftab[uc]] == t0[c0[uc]];
      OrPacked(tt[cftab[uc]], i);
      tt[cftab[uc]] := BitOr(tt[cftab[uc]], i * 256);
      cftab[uc] := cftab[uc] + 1;
      assert tt[..] == t0[c0[uc] := Packed(t0[c0[uc]], i)] && cftab[..] == c0[uc := c0[uc] + 1];
    }
  }

  lemma OrPacked(c: nat, i: nat)
    requires c < 256 && i < MAX_BLOCK
    ensures BitOr(c, i * 256) == Packed(c, i) < 0x1_0000_0000
  {
    Pow2Constants();
    BitOrCommutes(c, i * 256);
    BitOrDisjoint(i, c, 8);
  }

  /** Builds T^(-1) in the upper 24 bits of tt and takes the first step from origPtr. */
  method InvertFast(tt: array<Word>, cftab: array<int>, nblock: int, origPtr: int, ghost b: Block, ghost f: seq<int>)
    returns (tPos: int)
    requires tt as object != cftab && nblock == |b| <= MAX_BLOCK && nblock <= tt.Length && cftab.Length == 257
    requires SortedRotations(b, f) && 0 <= origPtr < nblock && f[origPtr] == 0
    requires forall q :: 0 <= q < nblock ==> tt[q] == LastColumn(b, f)[q]
    requires forall v :: 0 <= v < 256 ==> cftab[v] == Below(LastColumn(b, f), v)
    modifies tt, cftab
    ensures FastWalk(b, f, tt[..], tPos, 0)
  {
    hide RotSorted, Filling, Below, Equal, Same;
    BuildFast(tt, cftab, nblock, LastColumn(b, f));
    SameSelf(b, 0);
    FastSlot(b, f, tt[..], origPtr, 0);
    assert tt[..][origPtr] == tt[origPtr];
    tPos := tt[origPtr] / 256;
  }

  /** Fetches one byte: the walk yields the block, byte by byte, and starts over at its end. */
  method GetFast(tt: array<Word>, tPos: int, ghost b: Block, ghost f: seq<int>, ghost x: int)
    returns (c: Byte, tPos': int)
    requires FastWalk(b, f, tt[..], tPos, x)
    ensures c == b[x] && FastWalk(b, f, tt[..], tPos', Step(|b|, x))
  {
    hide FastWalk;
    FastStep(b, f, tt[..], tPos, x);
    assert tt[..][tPos] == tt[tPos];
    var t := tt[tPos];
    c := t % 256;
    tPos' := t / 256;
  }
}
