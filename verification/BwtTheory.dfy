/** Why the last column of the sorted rotations determines the block: the
    occurrences of a byte come in the same order in the first column and in the last,
    up to rotations that are equal as strings. */
module BwtTheory {
  import opened Bits
  import opened Rotations
  import opened Permutations
  import opened Radix
  import opened RotationRank
  import opened ScanOrder

  /** The byte before each sorted rotation: what the compressor transmits. */
  ghost function LastColumn(b: Block, f: seq<int>): (l: seq<int>)
    requires IsPerm(f, |b|)
    ensures |l| == |b| && forall i :: 0 <= i < |b| ==> l[i] == b[Back(|b|, f[i], 1)] && 0 <= l[i] < 256
  {
    seq(|b|, i requires 0 <= i < |b| => b[Back(|b|, f[i], 1)] as int)
  }

  /** Where item i goes when items are listed by key, equal keys in order. */
  ghost function Slot(keys: seq<int>, i: int): int
    requires 0 <= i < |keys|
  {
    Below(keys, keys[i]) + Equal(keys[..i], keys[i])
  }

  ghost function Slots(keys: seq<int>): (t: seq<int>)
    ensures |t| == |keys| && forall i :: 0 <= i < |keys| ==> t[i] == Slot(keys, i)
  {
    seq(|keys|, i requires 0 <= i < |keys| => Slot(keys, i))
  }

  lemma {:induction false} EqualPrefix(keys: seq<int>, i: int, j: int, v: int)
    requires 0 <= i <= j <= |keys|
    ensures Equal(keys[..i], v) <= Equal(keys[..j], v)
    ensures i < j && keys[i] == v ==> Equal(keys[..i], v) < Equal(keys[..j], v)
    decreases j
  {
    if i < j {
      assert keys[..j][..j - 1] == keys[..j - 1];
      EqualPrefix(keys, i, j - 1, v);
    }
  }

  lemma SlotBounds(keys: seq<int>, i: int)
    requires 0 <= i < |keys|
    ensures Below(keys, keys[i]) <= Slot(keys, i) < Below(keys, keys[i] + 1) <= |keys|
  {
    hide Below, Equal;
    EqualPrefix(keys, i, |keys|, keys[i]);
    assert keys[..|keys|] == keys;
    BelowNext(keys, keys[i]);
  }

  /** The slots order items by key, and by position among equal keys. */
  lemma SlotOrder(keys: seq<int>, i: int, j: int)
    requires 0 <= i < |keys| && 0 <= j < |keys|
    ensures Slot(keys, i) < Slot(keys, j) <==> keys[i] < keys[j] || (keys[i] == keys[j] && i < j)
  {
    SlotBounds(keys, i);
    SlotBounds(keys, j);
    if keys[i] < keys[j] {
      BelowMono(keys, keys[i] + 1, keys[j]);
    } else if keys[j] < keys[i] {
      BelowMono(keys, keys[j] + 1, keys[i]);
    } else if i <= j {
      EqualPrefix(keys, i, j, keys[i]);
    } else {
      EqualPrefix(keys, j, i, keys[i]);
    }
  }

  lemma SlotsPerm(keys: seq<int>)
    ensures IsPerm(Slots(keys), |keys|)
  {
    forall i | 0 <= i < |keys| ensures 0 <= Slot(keys, i) < |keys| { SlotBounds(keys, i); }
    forall i, j | 0 <= i < j < |keys| ensures Slot(keys, i) != Slot(keys, j) {
      SlotOrder(keys, i, j);
      SlotOrder(keys, j, i);
    }
  }

  // ---- inverse of a permutation ----

  ghost function Place(s: seq<int>, x: int): (p: int)
    requires x in s
    ensures 0 <= p < |s| && s[p] == x
  {
    var p :| 0 <= p < |s| && s[p] == x;
    p
  }

  lemma PermHits(s: seq<int>, n: nat, x: int)
    requires IsPerm(s, n) && 0 <= x < n
    ensures x in s
  {
    var p := PermSurjective(s, n, x);
  }

  ghost function Inverse(s: seq<int>): (t: seq<int>)
    requires IsPerm(s, |s|)
    ensures |t| == |s| && forall x :: 0 <= x < |s| ==> 0 <= t[x] < |s| && s[t[x]] == x
  {
    seq(|s|, x requires 0 <= x < |s| => PermHits(s, |s|, x); Place(s, x))
  }

  lemma InversePerm(s: seq<int>)
    requires IsPerm(s, |s|)
    ensures IsPerm(Inverse(s), |s|)
    ensures forall i :: 0 <= i < |s| ==> Inverse(s)[s[i]] == i
  {
    forall x, y | 0 <= x < y < |s| ensures Inverse(s)[x] != Inverse(s)[y] {
      assert s[Inverse(s)[x]] == x && s[Inverse(s)[y]] == y;
    }
  }

  // ---- two sorted lists of the same rotations ----

  lemma SortedByRank(b: Block, f: seq<int>, p: int, q: int)
    requires SortedRotations(b, f) && 0 <= p <= q < |b|
    ensures Ranks(b)[f[p]] <= Ranks(b)[f[q]]
  {
    RankOrder(b, f[p], f[q]);
  }

  lemma FirstOfTwo(b: Block, f: seq<int>, g: seq<int>, q: int)
    requires SortedRotations(b, f) && SortedRotations(b, g) && 0 <= q < |b|
    ensures Ranks(b)[f[q]] >= Ranks(b)[g[q]]
  {
    hide Ranks, RotSorted;
    if Ranks(b)[f[q]] < Ranks(b)[g[q]] {
      var lows := set p | 0 <= p < q + 1 :: f[p];
      var firsts := set p | 0 <= p < q :: g[p];
      DistinctCount(f, q + 1);
      DistinctCount(g, q);
      forall x | x in lows ensures x in firsts {
        var p :| 0 <= p < q + 1 && f[p] == x;
        SortedByRank(b, f, p, q);
        var r := PermSurjective(g, |b|, x);
        if r >= q { SortedByRank(b, g, q, r); }
        assert g[r] in firsts;
      }
      SubsetSize(lows, firsts);
      assert false;
    }
  }

  /** Two sorted lists of all rotations agree, position by position, up to equality as strings. */
  lemma SortedAgree(b: Block, f: seq<int>, g: seq<int>, q: int)
    requires SortedRotations(b, f) && SortedRotations(b, g) && 0 <= q < |b|
    ensures Cmp(b, f[q], g[q], |b|) == 0
  {
    FirstOfTwo(b, f, g, q);
    FirstOfTwo(b, g, f, q);
    RankOrder(b, f[q], g[q]);
  }

  /** The rotations one byte earlier, rearranged by their first byte. */
  ghost function Earlier(b: Block, f: seq<int>): (g: seq<int>)
    requires IsPerm(f, |b|)
    ensures |g| == |b|
  {
    SlotsPerm(LastColumn(b, f));
    var ti := Inverse(Slots(LastColumn(b, f)));
    seq(|b|, q requires 0 <= q < |b| => Back(|b|, f[ti[q]], 1))
  }

  lemma EarlierPair(b: Block, f: seq<int>, i: int, j: int)
    requires SortedRotations(b, f) && 0 <= i < |b| && 0 <= j < |b|
    requires Slot(LastColumn(b, f), i) < Slot(LastColumn(b, f), j)
    ensures Cmp(b, Back(|b|, f[i], 1), Back(|b|, f[j], 1), |b|) <= 0
  {
    hide Ranks, Slot;
    var l := LastColumn(b, f);
    var x, y := Back(|b|, f[i], 1), Back(|b|, f[j], 1);
    SlotOrder(l, i, j);
    if l[i] == l[j] {
      SortedByRank(b, f, i, j);
      assert Step(|b|, x) == f[i] && Step(|b|, y) == f[j];
      PredRank(b, x, y, true);
      RankOrder(b, x, y);
    }
  }

  lemma EarlierSorted(b: Block, f: seq<int>)
    requires SortedRotations(b, f)
    ensures SortedRotations(b, Earlier(b, f))
  {
    var l := LastColumn(b, f);
    SlotsPerm(l);
    var t := Slots(l);
    var ti := Inverse(t);
    InversePerm(t);
    var g := Earlier(b, f);
    forall p, q | 0 <= p < q < |b| ensures g[p] != g[q] && Cmp(b, g[p], g[q], |b|) <= 0 {
      assert t[ti[p]] == p && t[ti[q]] == q;
      EarlierPair(b, f, ti[p], ti[q]);
      assert Step(|b|, g[p]) == f[ti[p]] && Step(|b|, g[q]) == f[ti[q]];
    }
  }

  /** The last-to-first mapping: the rotation at slot T[i] is, as a string, the one
      that starts one byte before the rotation at i. */
  lemma LastToFirst(b: Block, f: seq<int>, i: int)
    requires SortedRotations(b, f) && 0 <= i < |b|
    ensures var t := Slots(LastColumn(b, f)); 0 <= t[i] < |b| && Cmp(b, Back(|b|, f[i], 1), f[t[i]], |b|) == 0
  {
    var l := LastColumn(b, f);
    SlotsPerm(l);
    InversePerm(Slots(l));
    EarlierSorted(b, f);
    SortedAgree(b, Earlier(b, f), f, Slots(l)[i]);
  }

  // ---- equal rotations ----

  /** The same cyclic string. */
  ghost predicate Same(b: Block, x: int, y: int) {
    0 <= x < |b| && 0 <= y < |b| && Cmp(b, x, y, |b|) == 0
  }

  lemma SameSelf(b: Block, x: int)
    requires 0 <= x < |b|
    ensures Same(b, x, x)
  {
    CmpSelf(b, x, |b|);
  }

  lemma SameTrans(b: Block, x: int, y: int, z: int)
    requires Same(b, x, y) && Same(b, y, z)
    ensures Same(b, x, z) && Same(b, y, x)
  {
    CmpAnti(b, x, y, |b|);
    CmpAnti(b, y, z, |b|);
    CmpAnti(b, x, z, |b|);
    CmpTrans(b, x, y, z, |b|);
    CmpTrans(b, z, y, x, |b|);
  }

  /** Equal rotations have equal bytes, and stay equal one byte on or back. */
  lemma SameMoves(b: Block, x: int, y: int)
    requires Same(b, x, y)
    ensures b[x] == b[y] && Same(b, Step(|b|, x), Step(|b|, y))
    ensures b[Back(|b|, x, 1)] == b[Back(|b|, y, 1)]
  {
    var n := |b|;
    CmpSplit(b, x, y, n - 1, 1);
    assert Fwd(n, x, n - 1) == Back(n, x, 1) && Fwd(n, y, n - 1) == Back(n, y, 1);
    CmpSplit(b, x, y, 1, n - 1);
    var x', y' := Step(n, x), Step(n, y);
    assert Fwd(n, x, 1) == x' && Fwd(n, y, 1) == y';
    CmpSplit(b, x', y', n - 1, 1);
    assert Fwd(n, x', n - 1) == x && Fwd(n, y', n - 1) == y;
  }

  /** Undoing the last-to-first mapping moves one byte on. */
  lemma FollowingSlot(b: Block, f: seq<int>, i: int, x: int)
    requires SortedRotations(b, f) && 0 <= i < |b|
    requires 0 <= Slot(LastColumn(b, f), i) < |b| && Same(b, f[Slot(LastColumn(b, f), i)], x)
    ensures Same(b, f[i], Step(|b|, x)) && LastColumn(b, f)[i] == b[x]
  {
    hide RotSorted, Slot, Cmp;
    LastToFirst(b, f, i);
    var y := Back(|b|, f[i], 1);
    assert Slots(LastColumn(b, f))[i] == Slot(LastColumn(b, f), i);
    SameTrans(b, y, f[Slot(LastColumn(b, f), i)], x);
    SameMoves(b, y, x);
    assert Step(|b|, y) == f[i];
  }
}
