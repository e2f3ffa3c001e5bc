/** The order in which big buckets are processed: shell sort by size. */
module RunningOrder {
  import opened Rotations
  import opened Segments
  import opened Partitioning
  import opened MainShellSort

  /** How many rotations start with each byte, from the table of bucket starts. */
  ghost function Sizes(tab: seq<int>): (k: seq<int>)
    requires |tab| == 65537
    ensures |k| == 256 && forall c :: 0 <= c < 256 ==> k[c] == tab[(c + 1) * 256] - tab[c * 256]
  {
    seq(256, c requires 0 <= c < 256 => tab[(c + 1) * 256] - tab[c * 256])
  }

  method BigFreq(ftab: array<int>, c: int) returns (r: int)
    requires ftab.Length == 65537 && 0 <= c < 256
    ensures r == Sizes(ftab[..])[c]
  {
    r := ftab[(c + 1) * 256] - ftab[c * 256];
  }

  /** Part way through an insertion: v belongs in slot j or below. */
  ghost predicate Opening(key: seq<int>, f: seq<int>, f0: seq<int>, i: int, j: int, v: int, h: int) {
    && |f| == |f0| && 0 <= j <= i < |f| && 0 <= v < |key| && f0[i] == v
    && SamePart(f[j := v], f0, 0, i + 1)
    && Indexes(f, 0, i + 1, |key|)
    && (h == 1 ==> forall p :: 0 <= p < j ==> f[p] == f0[p])
    && (h == 1 ==> forall p :: j < p <= i ==> f[p] == f0[p - 1] && key[v] <= key[f[p]])
  }

  lemma OpeningStart(key: seq<int>, f: seq<int>, i: int, h: int)
    requires 0 <= i < |f| && Indexes(f, 0, i + 1, |key|)
    ensures 0 <= f[i] < |key| && Opening(key, f, f, i, i, f[i], h)
  {
    SamePartSelf(f, 0, i + 1);
    assert f[i := f[i]] == f;
  }

  lemma OpeningFacts(key: seq<int>, f: seq<int>, f0: seq<int>, i: int, j: int, v: int, h: int)
    requires Opening(key, f, f0, i, j, v, h)
    ensures |f| == |f0| && 0 <= j <= i < |f| && 0 <= v < |key| && Indexes(f, 0, i + 1, |key|)
  {
  }

  lemma OpeningStep(key: seq<int>, f: seq<int>, f0: seq<int>, i: int, j: int, v: int, h: int)
    requires Opening(key, f, f0, i, j, v, h) && 1 <= h <= j
    requires 0 <= f[j - h] < |key| && key[v] < key[f[j - h]]
    ensures Opening(key, f[j := f[j - h]], f0, i, j - h, v, h)
  {
    hide SamePart;
    SlotMoves(f, f0, j, j - h, v, 0, i + 1);
  }

  lemma OpeningEnd(key: seq<int>, f: seq<int>, f0: seq<int>, i: int, j: int, v: int, h: int)
    requires Opening(key, f, f0, i, j, v, h) && 1 <= h
    requires h <= j ==> 0 <= f[j - h] < |key| && key[f[j - h]] <= key[v]
    ensures SamePart(f[j := v], f0, 0, i + 1)
    ensures h == 1 && KeySorted(key, f0, 0, i) ==> KeySorted(key, f[j := v], 0, i + 1)
  {
    hide SamePart;
    if h == 1 && KeySorted(key, f0, 0, i) {
      InsertedSortedUp(key, f0, f[j := v], 0, j, i);
    }
  }

  method InsertBySize(order: array<int>, ftab: array<int>, i: int, h: int)
    requires order != ftab && ftab.Length == 65537 && order.Length == 256
    requires 1 <= h <= i < 256 && Indexes(order[..], 0, 256, 256)
    modifies order
    ensures SamePart(order[..], old(order[..]), 0, i + 1)
    ensures h == 1 && KeySorted(Sizes(ftab[..]), old(order[..]), 0, i) ==>
              KeySorted(Sizes(ftab[..]), order[..], 0, i + 1)
  {
    hide SamePart, KeySorted, Opening;
    ghost var key, f0 := Sizes(ftab[..]), order[..];
    OpeningStart(key, f0, i, h);
    var vv := order[i];
    var j := i;
    while true
      invariant h <= j <= i && Opening(key, order[..], f0, i, j, vv, h) && Sizes(ftab[..]) == key
      decreases j
    {
      OpeningFacts(key, order[..], f0, i, j, vv, h);
      var x := BigFreq(ftab, order[j - h]);
      var y := BigFreq(ftab, vv);
      if x <= y { break; }
      OpeningStep(key, order[..], f0, i, j, vv, h);
      order[j] := order[j - h];
      j := j - h;
      if j <= h - 1 { break; }
    }
    OpeningFacts(key, order[..], f0, i, j, vv, h);
    OpeningEnd(key, order[..], f0, i, j, vv, h);
    order[j] := vv;
  }

  /** Lists the 256 big buckets from smallest to largest. */
  method ComputeRunningOrder(order: array<int>, ftab: array<int>)
    requires order != ftab && ftab.Length == 65537 && order.Length == 256
    modifies order
    ensures IsPerm(order[..], 256) && KeySorted(Sizes(ftab[..]), order[..], 0, 256)
  {
    ghost var key := Sizes(ftab[..]);
    for i := 0 to 256
      invariant forall p :: 0 <= p < i ==> order[p] == p
    {
      order[i] := i;
    }
    ghost var f0 := order[..];
    assert IsPerm(f0, 256) && Indexes(f0, 0, 256, 256);
    SamePartSelf(f0, 0, 256);
    hide SamePart, KeySorted, Indexes, IsPerm;
    var h := 1;
    h := 3 * h + 1;
    while h <= 256
      invariant h in [4, 13, 40, 121, 364]
      decreases 364 - h
    {
      h := 3 * h + 1;
    }
    while true
      invariant h in [4, 13, 40, 121, 364]
      invariant SamePart(order[..], f0, 0, 256) && Indexes(order[..], 0, 256, 256) && Sizes(ftab[..]) == key
      decreases h
    {
      h := h / 3;
      PrefixOne(key, order[..], h);
      for i := h to 256
        invariant SamePart(order[..], f0, 0, 256) && Indexes(order[..], 0, 256, 256) && Sizes(ftab[..]) == key
        invariant h == 1 ==> KeySorted(key, order[..], 0, i)
      {
        ghost var f1 := order[..];
        InsertBySize(order, ftab, i, h);
        SamePartWiden(order[..], f1, 0, i + 1, 0, 256);
        SamePartTrans(order[..], f1, f0, 0, 256);
        IndexesPart(order[..], f1, 0, i + 1, 0, 256, 256);
      }
      if h == 1 { break; }
    }
    PermPart(order[..], f0, 0, 256, 256);
  }

  lemma PrefixOne(key: seq<int>, f: seq<int>, h: int)
    requires Indexes(f, 0, 256, 256) && |key| == 256 && |f| == 256
    ensures h == 1 ==> KeySorted(key, f, 0, h)
  {
  }
}
