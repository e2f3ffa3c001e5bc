/** Rotations ranked by their order, so that sorting by rank is sorting rotations. */
module RotationRank {
  import opened Rotations
  import opened Permutations
  import opened Segments

  /** The rotations that come strictly before x. */
  ghost function Before(b: Block, x: int): (s: set<int>)
    requires 0 <= x < |b|
    ensures forall z :: z in s <==> 0 <= z < |b| && Cmp(b, z, x, |b|) < 0
  {
    set z | z in UpTo(|b|) && Cmp(b, z, x, |b|) < 0
  }

  ghost function Ranks(b: Block): (r: seq<int>)
    ensures |r| == |b|
    ensures forall x :: 0 <= x < |b| ==> r[x] == |Before(b, x)|
  {
    seq(|b|, x requires 0 <= x < |b| => |Before(b, x)|)
  }

  lemma RankOrder(b: Block, x: int, y: int)
    requires 0 <= x < |b| && 0 <= y < |b|
    ensures Ranks(b)[x] <= Ranks(b)[y] <==> Cmp(b, x, y, |b|) <= 0
    ensures Ranks(b)[x] == Ranks(b)[y] <==> Cmp(b, x, y, |b|) == 0
  {
    var n := |b|;
    CmpAnti(b, x, y, n);
    if Cmp(b, x, y, n) < 0 {
      RankBelow(b, x, y);
    } else if Cmp(b, x, y, n) > 0 {
      RankBelow(b, y, x);
    } else {
      forall z | 0 <= z < n ensures Cmp(b, z, x, n) < 0 <==> Cmp(b, z, y, n) < 0 {
        if Cmp(b, z, x, n) < 0 { CmpTrans(b, z, x, y, n); }
        if Cmp(b, z, y, n) < 0 { CmpTrans(b, z, y, x, n); }
      }
      assert Before(b, x) == Before(b, y);
    }
  }

  lemma RankBelow(b: Block, x: int, y: int)
    requires 0 <= x < |b| && 0 <= y < |b| && Cmp(b, x, y, |b|) < 0
    ensures Ranks(b)[x] < Ranks(b)[y]
  {
    forall z | z in Before(b, x) ensures z in Before(b, y) {
      CmpTrans(b, z, x, y, |b|);
    }
    CmpSelf(b, x, |b|);
    assert x in Before(b, y) && x !in Before(b, x);
    SubsetSize(Before(b, x) + {x}, Before(b, y));
  }

  /** Sorted by rank is sorted as rotations. */
  lemma RankSorted(b: Block, f: seq<int>)
    requires IsPerm(f, |b|) && KeySorted(Ranks(b), f, 0, |b|)
    ensures SortedRotations(b, f)
  {
    forall p, q | 0 <= p < q < |b| ensures Cmp(b, f[p], f[q], |b|) <= 0 {
      RankOrder(b, f[p], f[q]);
    }
  }
}
