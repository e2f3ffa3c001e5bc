/** The small decoder's inverse: T is computed, then reversed along the one cycle
    that will be walked. */
module BwtSmall {
  import opened Bits
  import opened Rotations
  import opened Permutations
  import opened Radix
  import opened BwtTheory
  import opened BwtInverse
  import opened SmallPointers

  /** Which byte's bucket the position falls in: binary search. */
  method IndexIntoF(indx: int, cftab: array<int>, ghost keys: seq<int>) returns (nb: int)
    requires cftab.Length == 257 && (forall v :: 0 <= v <= 256 ==> cftab[v] == Below(keys, v))
    requires (forall i :: 0 <= i < |keys| ==> 0 <= keys[i] < 256) && 0 <= indx < |keys|
    ensures 0 <= nb < 256 && Below(keys, nb) <= indx < Below(keys, nb + 1)
  {
    hide Below;
    BelowEnds(keys, 256);
    nb := 0;
    var na := 256;
    while true
      invariant 0 <= nb < na <= 256 && na - nb > 1
      invariant Below(keys, nb) <= indx < Below(keys, na)
      decreases na - nb
    {
      var mid := (nb + na) / 2;
      if indx >= cftab[mid] { nb := mid; } else { na := mid; }
      if na - nb == 1 { break; }
    }
  }

  /** The byte whose bucket a slot falls in is the byte that was put there. */
  lemma SlotByte(keys: seq<int>, i: int, c: int)
    requires 0 <= i < |keys| && Below(keys, c) <= Slot(keys, i) < Below(keys, c + 1)
    ensures c == keys[i]
  {
    SlotBounds(keys, i);
    hide Slot, Below;
    if c < keys[i] { BelowMono(keys, c + 1, keys[i]); }
    if c > keys[i] { BelowMono(keys, keys[i] + 1, c); }
  }

  /** Every pointer on the closed path leads to its predecessor under T. */
  ghost predicate Reversed(t: seq<int>, p: seq<int>, path: seq<int>) {
    && |path| > 0 && |p| == |t|
    && (forall i :: 0 <= i < |path| ==> 0 <= path[i] < |t|)
    && (forall i :: 0 <= i < |path| ==> t[path[i]] == path[Step(|path|, i)])
    && (forall i :: 0 <= i < |path| ==> p[path[i]] == path[Back(|path|, i, 1)])
  }

  /** Part of the way: the path is open, its last pointer not yet followed. */
  ghost predicate Reversing(t: seq<int>, p: seq<int>, path: seq<int>) {
    && |path| > 0 && |p| == |t|
    && (forall i :: 0 <= i < |path| ==> 0 <= path[i] < |t|)
    && (forall i, j :: 0 <= i < j < |path| ==> path[i] != path[j])
    && (forall i :: 0 <= i < |path| - 1 ==> t[path[i]] == path[i + 1])
    && (forall i :: 1 <= i < |path| ==> p[path[i]] == path[i - 1])
    && p[path[0]] == t[path[0]]
    && (forall x :: 0 <= x < |t| && x !in path ==> p[x] == t[x])
  }

  lemma ReversingStart(t: seq<int>, o: int)
    requires 0 <= o < |t|
    ensures Reversing(t, t, [o])
  {
  }

  lemma ReversingFacts(t: seq<int>, p: seq<int>, path: seq<int>)
    requires IsPerm(t, |t|) && Reversing(t, p, path)
    ensures 1 <= |path| <= |t| == |p| && 0 <= path[|path| - 1] < |t| && 0 <= t[path[|path| - 1]] < |t|
    ensures p[t[path[|path| - 1]]] == t[t[path[|path| - 1]]] || t[path[|path| - 1]] in path
  {
    DistinctCount(path, |path|);
    var seen := set i | 0 <= i < |path| :: path[i];
    SubsetSize(seen, UpTo(|t|));
  }

  lemma Injective(t: seq<int>, x: int, y: int)
    requires IsPerm(t, |t|) && 0 <= x < |t| && 0 <= y < |t|
    ensures t[x] == t[y] ==> x == y
  {
  }

  /** Following T meets a path entry only where the path began. */
  lemma NoShortcut(t: seq<int>, p: seq<int>, path: seq<int>)
    requires IsPerm(t, |t|) && Reversing(t, p, path)
    ensures t[path[|path| - 1]] in path ==> t[path[|path| - 1]] == path[0]
  {
    var m := |path| - 1;
    if t[path[m]] in path {
      var k :| 0 <= k <= m && path[k] == t[path[m]];
      Injective(t, path[if k > 0 then k - 1 else m], path[m]);
    }
  }

  lemma ClosePath(t: seq<int>, p: seq<int>, path: seq<int>)
    requires Reversing(t, p, path) && t[path[|path| - 1]] == path[0]
    ensures p[path[0]] == t[path[0]] && Reversed(t, p[path[0] := path[|path| - 1]], path)
  {
    var i := path[|path| - 1];
    var p' := p[path[0] := i];
    forall k | 0 <= k < |path| ensures p'[path[k]] == path[Back(|path|, k, 1)] {
      if k > 0 { assert path[0] != path[k]; }
    }
  }

  lemma ExtendPath(t: seq<int>, p: seq<int>, path: seq<int>)
    requires Reversing(t, p, path) && t[path[|path| - 1]] !in path && 0 <= t[path[|path| - 1]] < |t|
    ensures var j := t[path[|path| - 1]]; p[j] == t[j] && Reversing(t, p[j := path[|path| - 1]], path + [j])
  {
    var m := |path| - 1;
    var i, j := path[m], t[path[m]];
    var path', p' := path + [j], p[j := i];
    forall x | 0 <= x < |t| && x !in path' ensures p'[x] == t[x] {
      assert path'[m + 1] == j;
      forall k | 0 <= k <= m ensures path[k] != x { assert path'[k] == path[k]; }
    }
    assert path'[0] == path[0];
  }

  lemma ReversingNext(t: seq<int>, p: seq<int>, path: seq<int>)
    requires IsPerm(t, |t|) && Reversing(t, p, path)
    ensures |path| >= 1 && 0 <= path[|path| - 1] < |t| == |p| && 0 <= t[path[|path| - 1]] < |t|
    ensures var i, j := path[|path| - 1], t[path[|path| - 1]];
            p[j] == t[j] && if j == path[0] then Reversed(t, p[j := i], path) else Reversing(t, p[j := i], path + [j])
  {
    ReversingFacts(t, p, path);
    NoShortcut(t, p, path);
    hide Reversing, Reversed, IsPerm;
    if t[path[|path| - 1]] == path[0] {
      ClosePath(t, p, path);
    } else {
      ExtendPath(t, p, path);
    }
  }

  /** Computes T in the pointers; the low halves held the last column. */
  method BuildPointers(ll16: array<Half>, ll4: array<Byte>, cftabCopy: array<int>, nblock: int, ghost keys: seq<int>)
    requires ll16 as object != ll4 && cftabCopy as object != ll16 && cftabCopy as object != ll4
    requires nblock == |keys| <= MAX_BLOCK && nblock <= ll16.Length && nblock <= 2 * ll4.Length
             && cftabCopy.Length == 257
    requires forall q :: 0 <= q < |keys| ==> ll16[q] == keys[q] && 0 <= keys[q] < 256
    requires forall v :: 0 <= v < 256 ==> cftabCopy[v] == Below(keys, v)
    modifies ll16, ll4, cftabCopy
    ensures Pointers(ll16[..], ll4[..], nblock) == Slots(keys)
  {
    hide CountedOff, Below, Equal, Slot;
    CountStart(keys, cftabCopy[..]);
    for i := 0 to nblock
      invariant CountedOff(keys, cftabCopy[..], i)
      invariant forall q :: i <= q < nblock ==> ll16[q] == keys[q]
      invariant forall q :: 0 <= q < i ==> Pointers(ll16[..], ll4[..], nblock)[q] == Slots(keys)[q]
    {
      ghost var c0 := cftabCopy[..];
      var uc := ll16[i];
      CountNext(keys, c0, i);
      SlotBounds(keys, i);
      SetLL(ll16, ll4, i, cftabCopy[uc], nblock);
      cftabCopy[uc] := cftabCopy[uc] + 1;
      assert cftabCopy[..] == c0[uc := c0[uc] + 1];
    }
  }

  /** Reverses the pointers along the cycle that contains origPtr, and no others. */
  method ReverseCycle(ll16: array<Half>, ll4: array<Byte>, nblock: int, origPtr: int, ghost t: seq<int>)
    returns (ghost path: seq<int>)
    requires ll16 as object != ll4 && nblock == |t| <= MAX_BLOCK && nblock <= ll16.Length && nblock <= 2 * ll4.Length
    requires 0 <= origPtr < nblock && IsPerm(t, nblock) && Pointers(ll16[..], ll4[..], nblock) == t
    modifies ll16, ll4
    ensures Reversed(t, Pointers(ll16[..], ll4[..], nblock), path) && path[0] == origPtr
  {
    hide Reversing, Reversed;
    path := [origPtr];
    ReversingStart(t, origPtr);
    var i := origPtr;
    var j := GetLL(ll16, ll4, i, nblock);
    while true
      invariant 1 <= |path| && path[0] == origPtr && i == path[|path| - 1] && 0 <= i < nblock && j == t[i]
      invariant Reversing(t, Pointers(ll16[..], ll4[..], nblock), path)
      decreases nblock - |path|
    {
      ghost var p := Pointers(ll16[..], ll4[..], nblock);
      ReversingNext(t, p, path);
      ReversingFacts(t, p, path);
      var tmp := GetLL(ll16, ll4, j, nblock);
      SetLL(ll16, ll4, j, i, nblock);
      i := j;
      j := tmp;
      if i == origPtr { break; }
      path := path + [i];
      ReversingFacts(t, Pointers(ll16[..], ll4[..], nblock), path);
    }
  }

  /** The walk stands where the next byte it yields is b[x]. */
  ghost predicate SmallWalk(b: Block, f: seq<int>, p: seq<int>, path: seq<int>, tPos: int, x: int) {
    && SortedRotations(b, f) && Reversed(Slots(LastColumn(b, f)), p, path)
    && 0 <= x < |b| && tPos in path && 0 <= tPos < |b| && Same(b, f[tPos], x)
  }

  lemma SmallStep(b: Block, f: seq<int>, p: seq<int>, path: seq<int>, tPos: int, x: int, c: int)
    requires SmallWalk(b, f, p, path, tPos, x)
    requires var l := LastColumn(b, f); Below(l, c) <= tPos < Below(l, c + 1)
    ensures |p| == |b| && 0 <= tPos < |b| && c == b[x] && SmallWalk(b, f, p, path, p[tPos], Step(|b|, x))
  {
    hide RotSorted, Slot, Same, Cmp, Below;
    var l := LastColumn(b, f);
    var i :| 0 <= i < |path| && path[i] == tPos;
    var k := path[Back(|path|, i, 1)];
    assert Step(|path|, Back(|path|, i, 1)) == i;
    assert Slots(l)[k] == tPos == Slot(l, k) && p[tPos] == k;
    SlotByte(l, k, c);
    FollowingSlot(b, f, k, x);
  }

  lemma SmallSizes(b: Block, f: seq<int>, p: seq<int>, path: seq<int>, tPos: int, x: int)
    requires SmallWalk(b, f, p, path, tPos, x)
    ensures 0 <= tPos < |b| && |LastColumn(b, f)| == |b| && SortedRotations(b, f)
  {
  }

  lemma SmallStart(b: Block, f: seq<int>, p: seq<int>, path: seq<int>, origPtr: int)
    requires SortedRotations(b, f) && 0 <= origPtr < |b| && f[origPtr] == 0
    requires Reversed(Slots(LastColumn(b, f)), p, path) && path[0] == origPtr
    ensures SmallWalk(b, f, p, path, origPtr, 0)
  {
    SameSelf(b, 0);
  }

  method InvertSmall(ll16: array<Half>, ll4: array<Byte>, cftab: array<int>, cftabCopy: array<int>, nblock: int,
      origPtr: int, ghost b: Block, ghost f: seq<int>)
    returns (tPos: int, ghost path: seq<int>)
    requires ll16 as object != ll4 && cftab != cftabCopy && cftabCopy as object != ll16 && cftabCopy as object != ll4
    requires cftab as object != ll16 && cftab as object != ll4
    requires nblock == |b| <= MAX_BLOCK && nblock <= ll16.Length && nblock <= 2 * ll4.Length
             && cftab.Length == cftabCopy.Length == 257
    requires SortedRotations(b, f) && 0 <= origPtr < nblock && f[origPtr] == 0
    requires forall q :: 0 <= q < nblock ==> ll16[q] == LastColumn(b, f)[q]
    requires forall v :: 0 <= v <= 256 ==> cftab[v] == Below(LastColumn(b, f), v)
    modifies ll16, ll4, cftabCopy
    ensures SmallWalk(b, f, Pointers(ll16[..], ll4[..], nblock), path, tPos, 0)
  {
    hide RotSorted, Below, Slot, SmallWalk, Reversed;
    ghost var keys := LastColumn(b, f);
    for i := 0 to 257
      invariant forall v :: 0 <= v < i ==> cftabCopy[v] == Below(keys, v)
      invariant forall q :: 0 <= q < nblock ==> ll16[q] == keys[q]
    {
      cftabCopy[i] := cftab[i];
    }
    BuildPointers(ll16, ll4, cftabCopy, nblock, keys);
    SlotsPerm(keys);
    path := ReverseCycle(ll16, ll4, nblock, origPtr, Slots(keys));
    SmallStart(b, f, Pointers(ll16[..], ll4[..], nblock), path, origPtr);
    tPos := origPtr;
  }

  /** Fetches one byte. */
  method GetSmall(ll16: array<Half>, ll4: array<Byte>, cftab: array<int>, tPos: int, ghost b: Block, ghost f: seq<int>,
      ghost path: seq<int>, ghost x: int)
    returns (c: Byte, tPos': int)
    requires |b| <= ll16.Length && |b| <= 2 * ll4.Length && cftab.Length == 257
    requires SmallWalk(b, f, Pointers(ll16[..], ll4[..], |b|), path, tPos, x)
    requires forall v :: 0 <= v <= 256 ==> cftab[v] == Below(LastColumn(b, f), v)
    ensures c == b[x] && SmallWalk(b, f, Pointers(ll16[..], ll4[..], |b|), path, tPos', Step(|b|, x))
  {
    hide RotSorted, Below, Slot, SmallWalk, Reversed;
    ghost var p := Pointers(ll16[..], ll4[..], |b|);
    SmallSizes(b, f, p, path, tPos, x);
    var nb := IndexIntoF(tPos, cftab, LastColumn(b, f));
    SmallStep(b, f, p, path, tPos, x, nb);
    c := nb;
    tPos' := GetLL(ll16, ll4, tPos, |b|);
  }
}
