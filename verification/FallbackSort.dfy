/** The fallback block sorter: an exponential radix sort that doubles, at each
    pass, the number of bytes by which the rotations are ordered. */
module FallbackSort {
  import opened Bits
  import opened Rotations
  import opened Segments
  import opened Permutations
  import opened Radix
  import opened BucketBits
  import opened Partitioning
  import opened FallbackQuickSort

  /** f is sorted by the first h bytes, and a mark stands exactly where a new
      group of h-equal rotations begins; the 64 marks past the end alternate. */
  ghost predicate Refined(b: Block, f: seq<int>, marks: seq<bool>, h: nat) {
    && IsPerm(f, |b|)
    && RotSorted(b, f, 0, |b|, h)
    && |marks| >= |b| + 64
    && (forall p :: 0 <= p < |b| ==> marks[p] == StartsGroup(b, f, p, h))
    && Sentinels(marks, |b|)
  }

  ghost predicate StartsGroup(b: Block, f: seq<int>, p: int, h: nat)
    requires IsPerm(f, |b|) && 0 <= p < |b|
  {
    p == 0 || Cmp(b, f[p - 1], f[p], h) != 0
  }

  ghost predicate Sentinels(marks: seq<bool>, n: nat) {
    && |marks| >= n + 64
    && (forall i :: 0 <= i < 32 ==> marks[n + 2 * i] && !marks[n + 2 * i + 1])
  }

  /** The bytes as sort keys. */
  ghost function Keys(b: Block): (k: seq<int>)
    ensures |k| == |b| && forall i :: 0 <= i < |b| ==> k[i] == b[i]
  {
    seq(|b|, i requires 0 <= i < |b| => b[i] as int)
  }

  /** Two orders with the same bytes at the same places. */
  ghost predicate SameBytes(b: Block, f: seq<int>, f0: seq<int>) {
    && |f| == |f0| == |b|
    && (forall p :: 0 <= p < |b| ==> 0 <= f[p] < |b| && 0 <= f0[p] < |b| && b[f[p]] == b[f0[p]])
  }

  lemma SameBytesTrans(b: Block, f2: seq<int>, f1: seq<int>, f0: seq<int>)
    requires SameBytes(b, f2, f1) && SameBytes(b, f1, f0)
    ensures SameBytes(b, f2, f0)
  {
  }

  lemma SameBytesSelf(b: Block, f: seq<int>)
    requires IsPerm(f, |b|)
    ensures SameBytes(b, f, f)
  {
  }

  // ---- the one-byte radix sort ----

  method CountBytes(block: array<Byte>, nblock: int, ftab: array<int>, ftabCopy: array<int>)
    requires 0 < nblock <= block.Length && ftab.Length == 257 && ftabCopy.Length == 256 && ftab != ftabCopy
    modifies ftab, ftabCopy
    ensures forall v :: 0 <= v < 256 ==> ftab[v] == Below(Keys(block[..nblock]), v + 1)
    ensures forall v :: 0 <= v < 256 ==> ftabCopy[v] == Equal(Keys(block[..nblock]), v)
  {
    ghost var keys := Keys(block[..nblock]);
    for i := 0 to 257
      invariant forall v :: 0 <= v < i ==> ftab[v] == 0
    {
      ftab[i] := 0;
    }
    for i := 0 to nblock
      invariant forall v :: 0 <= v < 257 ==> ftab[v] == Equal(keys[..i], v)
    {
      ghost var c := block[i];
      assert keys[..i + 1][..i] == keys[..i] && keys[i] == c;
      ftab[block[i]] := ftab[block[i]] + 1;
    }
    assert keys[..nblock] == keys;
    for i := 0 to 256
      invariant forall v :: 0 <= v < 257 ==> ftab[v] == Equal(keys, v)
      invariant forall v :: 0 <= v < i ==> ftabCopy[v] == Equal(keys, v)
    {
      ftabCopy[i] := ftab[i];
    }
    BelowEnds(keys, 256);
    BelowNext(keys, 0);
    for i := 1 to 257
      invariant forall v :: 0 <= v < i ==> ftab[v] == Below(keys, v + 1)
      invariant forall v :: i <= v < 257 ==> ftab[v] == Equal(keys, v)
      invariant forall v :: 0 <= v < 256 ==> ftabCopy[v] == Equal(keys, v)
    {
      BelowNext(keys, i);
      ftab[i] := ftab[i] + ftab[i - 1];
    }
  }

  lemma EqualSuffix(keys: seq<int>, i: int)
    requires 0 <= i < |keys|
    ensures Equal(keys[i..], keys[i]) >= 1
    ensures forall v :: Equal(keys[i + 1..], v) == Equal(keys[i..], v) - (if v == keys[i] then 1 else 0)
  {
    assert keys[i..][1..] == keys[i + 1..];
    forall v ensures Equal(keys[i + 1..], v) == Equal(keys[i..], v) - (if v == keys[i] then 1 else 0) {
      EqualFirst(keys[i..], v);
    }
  }

  method Distribute(block: array<Byte>, nblock: int, ftab: array<int>, fmap: array<int>)
    requires 0 < nblock <= block.Length && fmap.Length == nblock && ftab.Length == 257 && ftab != fmap
    requires forall v :: 0 <= v < 256 ==> ftab[v] == Below(Keys(block[..nblock]), v + 1)
    modifies ftab, fmap
    ensures forall v :: 0 <= v < 256 ==> ftab[v] == Below(Keys(block[..nblock]), v)
    ensures IsPerm(fmap[..], nblock) && Bucketed(Keys(block[..nblock]), fmap[..], 256)
  {
    hide Placing, Below, Equal, IsPerm, Bucketed;
    ghost var keys := Keys(block[..nblock]);
    ghost var done: set<int> := {};
    forall v | 0 <= v < 256 ensures ftab[v] == Below(keys, v) + Equal(keys[0..], v) {
      BelowNext(keys, v);
      assert keys[0..] == keys;
    }
    PlacingStart(keys, fmap[..], ftab[..], 256);
    for i := 0 to nblock
      invariant Placing(keys, fmap[..], ftab[..], done, 256)
      invariant forall v :: 0 <= v < 256 ==> ftab[v] == Below(keys, v) + Equal(keys[i..], v)
      invariant forall x :: x in done ==> 0 <= x < i
    {
      var j := block[i];
      assert keys[i] == j;
      ghost var f0, t0 := fmap[..], ftab[..];
      EqualSuffix(keys, i);
      PlacingRoom(keys, f0, t0, done, 256, j);
      PlaceOne(keys, f0, t0, done, 256, i);
      var k := ftab[j] - 1;
      ftab[j] := k;
      fmap[k] := i;
      assert fmap[..] == f0[t0[j] - 1 := i] && ftab[..] == t0[j := t0[j] - 1];
      done := done + {i};
    }
    PlacingDone(keys, fmap[..], ftab[..], done, 256);
  }

  // ---- the initial marks ----

  /** Where the rotations that begin with byte v start. */
  ghost function ByteStart(b: Block, v: int): nat {
    Below(Keys(b), v)
  }

  method InitialMarks(ftab: array<int>, bhtab: array<Word>, nblock: int, ghost b: Block, ghost f: seq<int>)
    requires nblock == |b| && ftab.Length == 257 && 32 * bhtab.Length >= nblock + 96
    requires IsPerm(f, nblock) && Bucketed(Keys(b), f, 256)
    requires forall v :: 0 <= v < 256 ==> ftab[v] == Below(Keys(b), v)
    modifies bhtab
    ensures Refined(b, f, Marks(bhtab[..]), 1)
  {
    hide Marks;
    var nBhtab := 2 + nblock / 32;
    for i := 0 to nBhtab
      invariant forall j :: 0 <= j < i ==> bhtab[j] == 0
    {
      bhtab[i] := 0;
    }
    ghost var m := Marks(bhtab[..]);
    forall z | 0 <= z < nblock ensures !m[z] {
      WordMarks(bhtab[..], z - z % 32);
    }
    for i := 0 to 256
      invariant |Marks(bhtab[..])| == 32 * bhtab.Length
      invariant forall z :: 0 <= z < nblock ==> Marks(bhtab[..])[z] == exists v :: 0 <= v < i && ByteStart(b, v) == z
    {
      ghost var m0 := Marks(bhtab[..]);
      SetMark(bhtab, ftab[i]);
      forall z | 0 <= z < nblock
        ensures Marks(bhtab[..])[z] == exists v :: 0 <= v < i + 1 && ByteStart(b, v) == z
      {
        if ByteStart(b, i) != z {
          assert Marks(bhtab[..])[z] == m0[z];
          if m0[z] {
            var w :| 0 <= w < i && ByteStart(b, w) == z;
            assert 0 <= w < i + 1;
          }
        }
      }
    }
    forall p | 0 <= p < nblock
      ensures Marks(bhtab[..])[p] == StartsGroup(b, f, p, 1)
    {
      BucketStarts(b, f, p);
    }
    OneByteSorted(b, f);
    for i := 0 to 32
      invariant |Marks(bhtab[..])| == 32 * bhtab.Length
      invariant forall p :: 0 <= p < nblock ==> Marks(bhtab[..])[p] == StartsGroup(b, f, p, 1)
      invariant forall j :: 0 <= j < i ==> Marks(bhtab[..])[nblock + 2 * j] && !Marks(bhtab[..])[nblock + 2 * j + 1]
    {
      SetMark(bhtab, nblock + 2 * i);
      ClearMark(bhtab, nblock + 2 * i + 1);
    }
  }

  lemma OneByteSorted(b: Block, f: seq<int>)
    requires IsPerm(f, |b|) && Bucketed(Keys(b), f, 256)
    ensures RotSorted(b, f, 0, |b|, 1)
  {
    forall p, q | 0 <= p < q < |b| ensures Cmp(b, f[p], f[q], 1) <= 0 {
      BucketedSorted(Keys(b), f, 256, p, q);
    }
  }

  /** A bucket boundary is where the first byte changes. */
  lemma BucketStarts(b: Block, f: seq<int>, p: int)
    requires IsPerm(f, |b|) && Bucketed(Keys(b), f, 256) && 0 <= p < |b|
    ensures StartsGroup(b, f, p, 1) <==> exists v :: 0 <= v < 256 && ByteStart(b, v) == p
  {
    var keys := Keys(b);
    BelowEnds(keys, 256);
    BucketedSorted(keys, f, 256, p, p);
    if p > 0 {
      BucketedSorted(keys, f, 256, p - 1, p);
      BucketedSorted(keys, f, 256, p - 1, p - 1);
      var c, d := keys[f[p - 1]], keys[f[p]];
      assert Cmp(b, f[p - 1], f[p], 1) != 0 <==> c != d;
      if c != d {
        BelowMono(keys, c + 1, d);
        assert ByteStart(b, d) == p;
      } else {
        forall v | 0 <= v < 256 ensures ByteStart(b, v) != p {
          if v <= c { BelowMono(keys, v, c); } else { BelowMono(keys, c + 1, v); }
        }
      }
    }
  }

  // ---- one doubling pass ----

  /** The start of the group that position p belongs to. */
  ghost function GroupStart(marks: seq<bool>, p: int): (s: int)
    requires 0 <= p < |marks|
    ensures 0 <= s <= p
  {
    if p == 0 || marks[p] then p else GroupStart(marks, p - 1)
  }

  /** Group starts are ordered as the h-byte prefixes of the rotations are. */
  lemma {:induction false} GroupRank(b: Block, f: seq<int>, marks: seq<bool>, h: nat, p: int, q: int)
    requires Refined(b, f, marks, h) && 0 <= p <= q < |b|
    ensures Cmp(b, f[p], f[q], h) <= 0
    ensures GroupStart(marks, p) <= GroupStart(marks, q)
    ensures GroupStart(marks, p) == GroupStart(marks, q) <==> Cmp(b, f[p], f[q], h) == 0
    decreases q - p
  {
    if p == q {
      CmpSelf(b, f[p], h);
    } else {
      GroupRank(b, f, marks, h, p, q - 1);
      assert Cmp(b, f[q - 1], f[q], h) <= 0;
      CmpTrans(b, f[p], f[q - 1], f[q], h);
      if !marks[q] {
        assert !StartsGroup(b, f, q, h);
        CmpAnti(b, f[q - 1], f[q], h);
        CmpAnti(b, f[p], f[q - 1], h);
        CmpAnti(b, f[p], f[q], h);
        if Cmp(b, f[p], f[q - 1], h) == 0 {
          CmpTrans(b, f[q], f[q - 1], f[p], h);
        }
      }
    }
  }

  /** A class number stands for the order of the h bytes that start h further on. */
  ghost predicate ClassesOf(b: Block, key: seq<int>, h: nat)
    requires h <= |b|
  {
    && |key| == |b|
    && (forall x :: 0 <= x < |b| ==> key[x] >= 0)
    && (forall x, y :: 0 <= x < |b| && 0 <= y < |b| ==>
          (key[x] < key[y] <==> Cmp(b, Fwd(|b|, x, h), Fwd(|b|, y, h), h) < 0)
          && (key[x] == key[y] <==> Cmp(b, Fwd(|b|, x, h), Fwd(|b|, y, h), h) == 0))
  }

  lemma ClassesMean(b: Block, f: seq<int>, marks: seq<bool>, key: seq<int>, h: nat)
    requires Refined(b, f, marks, h) && h <= |b| == |key|
    requires forall p :: 0 <= p < |b| ==> key[Back(|b|, f[p], h)] == GroupStart(marks, p)
    ensures ClassesOf(b, key, h)
  {
    var n := |b|;
    forall x, y | 0 <= x < n && 0 <= y < n
      ensures key[x] >= 0
      ensures (key[x] < key[y] <==> Cmp(b, Fwd(n, x, h), Fwd(n, y, h), h) < 0)
           && (key[x] == key[y] <==> Cmp(b, Fwd(n, x, h), Fwd(n, y, h), h) == 0)
    {
      var p := PermSurjective(f, n, Fwd(n, x, h));
      var q := PermSurjective(f, n, Fwd(n, y, h));
      assert Back(n, f[p], h) == x && Back(n, f[q], h) == y;
      if p <= q {
        GroupRank(b, f, marks, h, p, q);
      } else {
        GroupRank(b, f, marks, h, q, p);
        CmpAnti(b, f[p], f[q], h);
      }
    }
  }

  lemma GroupStartStep(marks: seq<bool>, i: int)
    requires 0 <= i < |marks|
    ensures GroupStart(marks, i) == if i == 0 || marks[i] then i else GroupStart(marks, i - 1)
  {
  }

  lemma RefinedPerm(b: Block, f: seq<int>, marks: seq<bool>, h: nat)
    requires Refined(b, f, marks, h)
    ensures IsPerm(f, |b|) && |marks| >= |b| + 64
  {
  }

  /** A store into eclass also overwrites four bytes of the block that shares its memory. */
  method StoreClass(eclass: array<int>, eclass8: array<Byte>, k: int, j: int)
    requires 0 <= k < eclass.Length && eclass as object != eclass8
    modifies eclass, eclass8
    ensures eclass[..] == old(eclass[..])[k := j]
  {
    eclass[k] := j;
    for t := 4 * k to 4 * k + 4
      invariant eclass[..] == old(eclass[..])[k := j]
    {
      if t < eclass8.Length { eclass8[t] := *; }
    }
  }

  /** Numbers the groups: position fmap[i] - H gets the class of what follows it. */
  method AssignClasses(fmap: array<int>, eclass: array<int>, eclass8: array<Byte>, bhtab: array<Word>, H: int,
      ghost b: Block)
    requires fmap != eclass && fmap.Length == eclass.Length == |b|
    requires eclass as object != eclass8 && fmap as object != eclass8
    requires bhtab as object != eclass && bhtab as object != eclass8
    requires 1 <= H <= |b|
    requires Refined(b, fmap[..], Marks(bhtab[..]), H)
    modifies eclass, eclass8
    ensures ClassesOf(b, eclass[..], H)
  {
    hide Marks, Refined, GroupStart, ClassesOf;
    var nblock := fmap.Length;
    ghost var words, f := bhtab[..], fmap[..];
    ghost var m := Marks(words);
    RefinedPerm(b, f, m, H);
    var j := 0;
    for i := 0 to nblock
      invariant if i == 0 then j == 0 else j == GroupStart(m, i - 1)
      invariant bhtab[..] == words && fmap[..] == f
      invariant forall p :: 0 <= p < i ==> eclass[Back(nblock, f[p], H)] == GroupStart(m, p)
    {
      var on := IsMarked(bhtab, i);
      GroupStartStep(m, i);
      if on { j := i; }
      var k := fmap[i] - H;
      if k < 0 { k := k + nblock; }
      assert k == Back(nblock, f[i], H);
      ghost var e0 := eclass[..];
      StoreClass(eclass, eclass8, k, j);
      forall p | 0 <= p < i + 1 ensures eclass[Back(nblock, f[p], H)] == GroupStart(m, p) {
        assert p < i ==> f[p] != f[i] && eclass[..][Back(nblock, f[p], H)] == e0[Back(nblock, f[p], H)];
      }
    }
    ClassesMean(b, f, m, eclass[..], H);
  }

  /** Part way through a pass: positions up to r are refined to 2h bytes, the
      rest still to h bytes, and a group starts at r + 1. */
  ghost predicate Mixed(b: Block, f: seq<int>, marks: seq<bool>, h: nat, r: int) {
    && -1 <= r < |b|
    && IsPerm(f, |b|)
    && RotSorted(b, f, 0, |b|, h)
    && RotSorted(b, f, 0, r + 1, 2 * h)
    && Sentinels(marks, |b|)
    && marks[r + 1]
    && (forall p :: 0 <= p <= r ==> marks[p] == StartsGroup(b, f, p, 2 * h))
    && (forall p :: r < p < |b| ==> marks[p] == StartsGroup(b, f, p, h))
  }

  lemma MixedStart(b: Block, f: seq<int>, marks: seq<bool>, h: nat)
    requires Refined(b, f, marks, h)
    ensures Mixed(b, f, marks, h, -1)
  {
  }

  /** Across a group boundary the order is strict. */
  lemma AcrossBoundary(b: Block, f: seq<int>, h: nat, p: int, t: int, q: int)
    requires IsPerm(f, |b|) && RotSorted(b, f, 0, |b|, h)
    requires 0 <= p < t <= q < |b| && StartsGroup(b, f, t, h)
    ensures Cmp(b, f[p], f[q], h) < 0
  {
    if p < t - 1 { CmpTrans(b, f[p], f[t - 1], f[t], h); }
    if t < q { CmpTrans(b, f[p], f[t], f[q], h); }
  }

  /** Between boundaries all rotations agree on their first h bytes. */
  lemma {:induction false} WithinGroup(b: Block, f: seq<int>, h: nat, l: int, q: int)
    requires IsPerm(f, |b|) && 0 <= l <= q < |b|
    requires forall p :: l < p <= q ==> !StartsGroup(b, f, p, h)
    ensures Cmp(b, f[l], f[q], h) == 0
    decreases q - l
  {
    if l == q {
      CmpSelf(b, f[l], h);
    } else {
      WithinGroup(b, f, h, l, q - 1);
      assert !StartsGroup(b, f, q, h);
      EqualTrans(b, f[l], f[q - 1], f[q], h);
    }
  }

  lemma EqualTrans(b: Block, x: int, y: int, z: int, h: nat)
    requires 0 <= x < |b| && 0 <= y < |b| && 0 <= z < |b|
    requires Cmp(b, x, y, h) == 0
    ensures Cmp(b, y, z, h) <= 0 ==> Cmp(b, x, z, h) <= 0
    ensures Cmp(b, y, z, h) < 0 ==> Cmp(b, x, z, h) < 0
    ensures Cmp(b, y, z, h) == 0 ==> Cmp(b, x, z, h) == 0
    ensures Cmp(b, z, y, h) < 0 ==> Cmp(b, z, x, h) < 0
    ensures Cmp(b, z, y, h) <= 0 ==> Cmp(b, z, x, h) <= 0
  {
    CmpAnti(b, x, y, h);
    CmpAnti(b, y, z, h);
    CmpAnti(b, x, z, h);
    if Cmp(b, y, z, h) <= 0 { CmpTrans(b, x, y, z, h); }
    if Cmp(b, z, y, h) <= 0 { CmpTrans(b, z, y, x, h); }
  }

  /** One group [l, r'] after its classes have been sorted. */
  ghost predicate GroupSorted(b: Block, f: seq<int>, f1: seq<int>, key: seq<int>, h: nat, l: int, r': int) {
    && 0 <= l <= r' < |b| == |key| == |f| == |f1|
    && h <= |b|
    && ClassesOf(b, key, h)
    && SamePart(f1, f, l, r' + 1)
    && Indexes(f1, l, r' + 1, |b|)
    && KeySorted(key, f1, l, r' + 1)
  }

  lemma GroupMembers(b: Block, f: seq<int>, f1: seq<int>, key: seq<int>, marks: seq<bool>, h: nat, r: int, l: int,
      r': int, p: int, q: int)
    requires Mixed(b, f, marks, h, r) && r < l && GroupSorted(b, f, f1, key, h, l, r')
    requires forall z :: l < z <= r' ==> !marks[z]
    requires l <= p <= r' && l <= q <= r'
    ensures 0 <= f1[p] < |b|
    ensures Cmp(b, f[q], f1[p], h) == 0 && Cmp(b, f1[p], f[q], h) == 0
  {
    var p0 := SamePartOrigin(f1, f, l, r' + 1, p);
    WithinGroup(b, f, h, l, p0);
    WithinGroup(b, f, h, l, q);
    CmpAnti(b, f[l], f[q], h);
    EqualTrans(b, f[q], f[l], f[p0], h);
    CmpAnti(b, f[q], f[p0], h);
  }

  lemma GroupOrder(b: Block, f: seq<int>, f1: seq<int>, key: seq<int>, marks: seq<bool>, h: nat, r: int, l: int,
      r': int, p: int, q: int)
    requires Mixed(b, f, marks, h, r) && r < l && GroupSorted(b, f, f1, key, h, l, r')
    requires forall z :: l < z <= r' ==> !marks[z]
    requires l <= p < q <= r' && 0 <= f1[p] < |b| && 0 <= f1[q] < |b|
    ensures Cmp(b, f1[p], f1[q], h) == 0
    ensures Cmp(b, f1[p], f1[q], 2 * h) <= 0
    ensures Cmp(b, f1[p], f1[q], 2 * h) == 0 <==> key[f1[p]] == key[f1[q]]
    ensures b[f1[p]] == b[f[p]] || h == 0
  {
    GroupMembers(b, f, f1, key, marks, h, r, l, r', p, p);
    GroupMembers(b, f, f1, key, marks, h, r, l, r', q, p);
    hide Mixed, SamePart, KeySorted, ClassesOf;
    EqualTrans(b, f1[p], f[p], f1[q], h);
    ClassOrder(b, key, h, f1[p], f1[q]);
    ClassSorted(b, f, f1, key, h, l, r', p, q);
    if h > 0 { CmpExtend(b, f1[p], f[p], 1, h); }
  }

  lemma ClassOrder(b: Block, key: seq<int>, h: nat, x: int, y: int)
    requires h <= |b| && ClassesOf(b, key, h) && 0 <= x < |b| && 0 <= y < |b|
    requires Cmp(b, x, y, h) == 0
    ensures Cmp(b, x, y, 2 * h) < 0 <==> key[x] < key[y]
    ensures Cmp(b, x, y, 2 * h) == 0 <==> key[x] == key[y]
  {
    CmpSplit(b, x, y, h, h);
  }

  lemma ClassSorted(b: Block, f: seq<int>, f1: seq<int>, key: seq<int>, h: nat, l: int, r': int, p: int, q: int)
    requires GroupSorted(b, f, f1, key, h, l, r') && l <= p < q <= r'
    ensures 0 <= f1[p] < |b| && 0 <= f1[q] < |b| && key[f1[p]] <= key[f1[q]]
  {
  }

  /** What the pass knows when it has sorted the group [l, r'] after r. */
  ghost predicate Step(b: Block, f: seq<int>, f1: seq<int>, key: seq<int>, marks: seq<bool>, h: nat, r: int, l: int,
      r': int)
  {
    && 1 <= h && Mixed(b, f, marks, h, r) && r < l && GroupSorted(b, f, f1, key, h, l, r')
    && (forall z :: r < z <= l ==> marks[z])
    && (forall z :: l < z <= r' ==> !marks[z])
    && marks[r' + 1]
  }

  ghost predicate NewMarks(f1: seq<int>, key: seq<int>, marks: seq<bool>, marks1: seq<bool>, l: int, r': int)
    requires 0 <= l <= r' < |f1|
    requires Indexes(f1, l, r' + 1, |key|)
  {
    && |marks1| == |marks| > r'
    && (forall z :: 0 <= z < |marks| && !(l <= z <= r') ==> marks1[z] == marks[z])
    && marks1[l]
    && (forall z :: l < z <= r' ==> marks1[z] == (key[f1[z - 1]] != key[f1[z]]))
  }

  lemma StepBytes(b: Block, f: seq<int>, f1: seq<int>, key: seq<int>, marks: seq<bool>, h: nat, r: int, l: int, r': int)
    requires Step(b, f, f1, key, marks, h, r, l, r')
    ensures IsPerm(f1, |b|)
    ensures SameBytes(b, f1, f)
  {
    PermPart(f1, f, l, r' + 1, |b|);
    forall p | 0 <= p < |b| ensures b[f1[p]] == b[f[p]] {
      if l <= p <= r' {
        GroupMembers(b, f, f1, key, marks, h, r, l, r', p, p);
        CmpExtend(b, f1[p], f[p], 1, h);
      }
    }
  }

  lemma StepOrder(b: Block, f: seq<int>, f1: seq<int>, key: seq<int>, marks: seq<bool>, h: nat, r: int, l: int, r': int)
    requires Step(b, f, f1, key, marks, h, r, l, r') && IsPerm(f1, |b|)
    ensures RotSorted(b, f1, 0, |b|, h) && RotSorted(b, f1, 0, r' + 1, 2 * h)
  {
    forall p, q | 0 <= p < q < |b| ensures Cmp(b, f1[p], f1[q], h) <= 0 {
      MixedOrderH(b, f, f1, key, marks, h, r, l, r', p, q);
    }
    forall p, q | 0 <= p < q < r' + 1 ensures Cmp(b, f1[p], f1[q], 2 * h) <= 0 {
      if l <= p {
        GroupOrder(b, f, f1, key, marks, h, r, l, r', p, q);
      } else if q > r {
        MixedStrict(b, f, f1, key, marks, h, r, l, r', p, q);
      }
    }
  }

  lemma StepMark(b: Block, f: seq<int>, f1: seq<int>, key: seq<int>, marks: seq<bool>, marks1: seq<bool>, h: nat,
      r: int, l: int, r': int, p: int)
    requires Step(b, f, f1, key, marks, h, r, l, r') && IsPerm(f1, |b|)
    requires NewMarks(f1, key, marks, marks1, l, r')
    requires 0 <= p < |b|
    ensures marks1[p] == StartsGroup(b, f1, p, if p <= r' then 2 * h else h)
  {
    if p <= r {
      assert marks[p] == StartsGroup(b, f, p, 2 * h);
    } else if p <= l {
      if p > 0 { MixedStrict(b, f, f1, key, marks, h, r, l, r', p - 1, p); }
    } else if p <= r' {
      GroupOrder(b, f, f1, key, marks, h, r, l, r', p - 1, p);
    } else {
      assert marks[p] == StartsGroup(b, f, p, h);
      if p == r' + 1 {
        GroupMembers(b, f, f1, key, marks, h, r, l, r', r', r');
        EqualTrans(b, f1[r'], f[r'], f[p], h);
      }
    }
  }

  /** Sorting a group by class extends the refined part over it. */
  lemma MixedStep(b: Block, f: seq<int>, f1: seq<int>, key: seq<int>, marks: seq<bool>, marks1: seq<bool>, h: nat,
      r: int, l: int, r': int)
    requires Step(b, f, f1, key, marks, h, r, l, r')
    requires NewMarks(f1, key, marks, marks1, l, r')
    ensures Mixed(b, f1, marks1, h, r')
    ensures SameBytes(b, f1, f)
  {
    StepBytes(b, f, f1, key, marks, h, r, l, r');
    StepOrder(b, f, f1, key, marks, h, r, l, r');
    forall p | 0 <= p < |b| ensures marks1[p] == StartsGroup(b, f1, p, if p <= r' then 2 * h else h) {
      StepMark(b, f, f1, key, marks, marks1, h, r, l, r', p);
    }
    hide StartsGroup, RotSorted, SamePart, KeySorted, ClassesOf, IsPerm, GroupSorted;
  }

  lemma MixedOrderH(b: Block, f: seq<int>, f1: seq<int>, key: seq<int>, marks: seq<bool>, h: nat, r: int, l: int,
      r': int, p: int, q: int)
    requires Mixed(b, f, marks, h, r) && r < l && GroupSorted(b, f, f1, key, h, l, r') && IsPerm(f1, |b|)
    requires forall z :: l < z <= r' ==> !marks[z]
    requires 0 <= p < q < |b|
    ensures Cmp(b, f1[p], f1[q], h) <= 0
  {
    if l <= p <= r' && l <= q <= r' {
      GroupOrder(b, f, f1, key, marks, h, r, l, r', p, q);
    } else if l <= p <= r' {
      GroupMembers(b, f, f1, key, marks, h, r, l, r', p, p);
      EqualTrans(b, f1[p], f[p], f[q], h);
    } else if l <= q <= r' {
      GroupMembers(b, f, f1, key, marks, h, r, l, r', q, q);
      EqualTrans(b, f1[q], f[q], f[p], h);
    }
  }

  /** From before a boundary in (r, l] to after it the order is strict, also on 2h bytes. */
  lemma MixedStrict(b: Block, f: seq<int>, f1: seq<int>, key: seq<int>, marks: seq<bool>, h: nat, r: int, l: int,
      r': int, p: int, q: int)
    requires Mixed(b, f, marks, h, r) && r < l && GroupSorted(b, f, f1, key, h, l, r') && IsPerm(f1, |b|)
    requires forall z :: r < z <= l ==> marks[z]
    requires forall z :: l < z <= r' ==> !marks[z]
    requires 0 <= p < l && p < q <= r' && r < q
    ensures Cmp(b, f1[p], f1[q], h) < 0 && Cmp(b, f1[p], f1[q], 2 * h) < 0
  {
    var t := if q <= l then q else l;
    assert marks[t] && StartsGroup(b, f, t, h);
    AcrossBoundary(b, f, h, p, t, q);
    if q >= l {
      GroupMembers(b, f, f1, key, marks, h, r, l, r', q, q);
      EqualTrans(b, f1[q], f[q], f[p], h);
    }
    CmpExtend(b, f1[p], f1[q], h, 2 * h);
  }

  /** Only single-rotation groups remain: the pass is complete. */
  lemma MixedEnd(b: Block, f: seq<int>, marks: seq<bool>, h: nat, r: int)
    requires 1 <= h && Mixed(b, f, marks, h, r)
    requires forall z :: r < z < |b| ==> marks[z]
    ensures Refined(b, f, marks, 2 * h)
    ensures r == -1 && h <= |b| ==> RotSorted(b, f, 0, |b|, |b|)
  {
    forall p, q | 0 <= p < q < |b| ensures Cmp(b, f[p], f[q], 2 * h) <= 0
      ensures r == -1 && h <= |b| ==> Cmp(b, f[p], f[q], |b|) <= 0 {
      if q > r {
        assert marks[q];
        assert StartsGroup(b, f, q, h);
        AcrossBoundary(b, f, h, p, q, q);
        CmpExtend(b, f[p], f[q], h, 2 * h);
        if h <= |b| { CmpExtend(b, f[p], f[q], h, |b|); }
      }
    }
    forall p | 0 <= p < |b| ensures marks[p] == StartsGroup(b, f, p, 2 * h) {
      if p > r && p > 0 {
        CmpExtend(b, f[p - 1], f[p], h, 2 * h);
      }
    }
  }

  /** Marks the positions of [l, r] where the class changes. */
  method MarkHeaders(fmap: array<int>, eclass: array<int>, bhtab: array<Word>, l: int, r: int)
    requires bhtab as object != fmap && bhtab as object != eclass
    requires 0 <= l <= r < fmap.Length && r < 32 * bhtab.Length
    requires Indexes(fmap[..], l, r + 1, eclass.Length)
    requires forall x :: 0 <= x < eclass.Length ==> eclass[x] >= 0
    requires forall z :: l < z <= r ==> !Marks(bhtab[..])[z]
    modifies bhtab
    ensures NewMarks(fmap[..], eclass[..], old(Marks(bhtab[..])), Marks(bhtab[..]), l, r)
  {
    hide Marks;
    ghost var m, f, key := Marks(bhtab[..]), fmap[..], eclass[..];
    var cc := -1;
    for i := l to r + 1
      invariant |Marks(bhtab[..])| == |m| && fmap[..] == f && eclass[..] == key
      invariant cc == if i == l then -1 else key[f[i - 1]]
      invariant i > l ==> Marks(bhtab[..])[l]
      invariant forall z :: 0 <= z < |m| && !(l <= z < i) ==> Marks(bhtab[..])[z] == m[z]
      invariant forall z :: l < z < i ==> Marks(bhtab[..])[z] == (key[f[z - 1]] != key[f[z]])
    {
      var cc1 := eclass[fmap[i]];
      if cc != cc1 {
        SetMark(bhtab, i);
        cc := cc1;
      }
    }
  }

  lemma MixedFacts(b: Block, f: seq<int>, marks: seq<bool>, h: nat, r: int)
    requires Mixed(b, f, marks, h, r)
    ensures IsPerm(f, |b|) && |marks| >= |b| + 64 && marks[|b|] && !marks[|b| + 1] && marks[r + 1] && -1 <= r < |b|
    ensures Indexes(f, 0, |b|, |b|)
  {
    assert marks[|b| + 2 * 0] && !marks[|b| + 2 * 0 + 1];
  }

  lemma ClassesNonNegative(b: Block, key: seq<int>, h: nat)
    requires h <= |b| && ClassesOf(b, key, h)
    ensures |key| == |b| && forall x :: 0 <= x < |key| ==> key[x] >= 0
  {
  }

  lemma MakeStep(b: Block, f: seq<int>, f1: seq<int>, key: seq<int>, marks: seq<bool>, h: nat, r: int, l: int, r': int)
    requires 1 <= h <= |b| && Mixed(b, f, marks, h, r) && r < l <= r' < |b| == |f1|
    requires ClassesOf(b, key, h)
    requires SamePart(f1, f, l, r' + 1) && Indexes(f1, l, r' + 1, |key|) && KeySorted(key, f1, l, r' + 1)
    requires forall z :: r < z <= l ==> marks[z]
    requires forall z :: l < z <= r' ==> !marks[z]
    requires marks[r' + 1]
    ensures Step(b, f, f1, key, marks, h, r, l, r')
  {
    hide KeySorted, RotSorted, StartsGroup;
    ClassesNonNegative(b, key, h);
  }

  /** One pass: every group of h-equal rotations is sorted by what follows. */
  method RefinePass(fmap: array<int>, eclass: array<int>, bhtab: array<Word>, H: int, ghost b: Block)
    returns (nNotDone: int)
    requires fmap != eclass && fmap.Length == eclass.Length == |b| < 0x8000_0000
    requires bhtab as object != fmap && bhtab as object != eclass
    requires 1 <= H <= |b|
    requires Refined(b, fmap[..], Marks(bhtab[..]), H) && ClassesOf(b, eclass[..], H)
    modifies fmap, bhtab
    ensures Refined(b, fmap[..], Marks(bhtab[..]), 2 * H)
    ensures nNotDone == 0 ==> RotSorted(b, fmap[..], 0, |b|, |b|)
    ensures SameBytes(b, fmap[..], old(fmap[..]))
  {
    hide Marks, Mixed, Refined, RotSorted, SamePart, KeySorted, ClassesOf, Step, NewMarks, SameBytes;
    var nblock := fmap.Length;
    ghost var key := eclass[..];
    RefinedPerm(b, fmap[..], Marks(bhtab[..]), H);
    ghost var f00 := fmap[..];
    SameBytesSelf(b, f00);
    ClassesNonNegative(b, key, H);
    nNotDone := 0;
    var r := -1;
    MixedStart(b, fmap[..], Marks(bhtab[..]), H);
    while true
      invariant -1 <= r < nblock && nNotDone >= 0 && (nNotDone == 0 ==> r == -1)
      invariant Mixed(b, fmap[..], Marks(bhtab[..]), H, r)
      invariant IsPerm(fmap[..], nblock)
      invariant eclass[..] == key
      invariant SameBytes(b, fmap[..], f00)
      decreases nblock - r
    {
      ghost var f, m := fmap[..], Marks(bhtab[..]);
      MixedFacts(b, f, m, H, r);
      var k := NextClear(bhtab, r + 1, nblock + 1);
      var l := k - 1;
      if l >= nblock { break; }
      k := NextMarked(bhtab, k, nblock);
      ghost var r0 := r;
      r := k - 1;
      if r >= nblock { break; }
      if r > l {
        nNotDone := nNotDone + (r - l + 1);
        IndexesWiden(f, l, r + 1, 0, nblock, nblock);
        FallbackQSort3(fmap, eclass, l, r);
        MakeStep(b, f, fmap[..], key, m, H, r0, l, r);
        MarkHeaders(fmap, eclass, bhtab, l, r);
        MixedStep(b, f, fmap[..], key, m, Marks(bhtab[..]), H, r0, l, r);
        MixedFacts(b, fmap[..], Marks(bhtab[..]), H, r);
        SameBytesTrans(b, fmap[..], f, f00);
      }
    }
    MixedEnd(b, fmap[..], Marks(bhtab[..]), H, r);
  }

  // ---- the block comes back ----

  /** Rewrites the block, whose bytes the classes have overwritten, from the
      sorted order and the byte counts. */
  method Restore(fmap: array<int>, eclass8: array<Byte>, ftabCopy: array<int>, ghost b: Block)
    requires fmap.Length == |b| <= eclass8.Length && ftabCopy.Length == 256
    requires fmap as object != eclass8 && ftabCopy as object != eclass8 && fmap != ftabCopy
    requires IsPerm(fmap[..], |b|) && Bucketed(Keys(b), fmap[..], 256)
    requires forall v :: 0 <= v < 256 ==> ftabCopy[v] == Equal(Keys(b), v)
    modifies eclass8, ftabCopy
    ensures eclass8[..|b|] == b
  {
    hide Bucketed;
    var nblock := fmap.Length;
    ghost var keys, f := Keys(b), fmap[..];
    BelowEnds(keys, 256);
    BelowNext(keys, 0);
    var j := 0;
    for i := 0 to nblock
      invariant 0 <= j < 256 && fmap[..] == f
      invariant Below(keys, j) <= i <= Below(keys, j + 1) && ftabCopy[j] == Below(keys, j + 1) - i
      invariant forall v :: j < v < 256 ==> ftabCopy[v] == Equal(keys, v)
      invariant forall p :: 0 <= p < i ==> eclass8[f[p]] == b[f[p]]
    {
      while ftabCopy[j] == 0
        invariant 0 <= j < 256
        invariant Below(keys, j) <= i <= Below(keys, j + 1) && ftabCopy[j] == Below(keys, j + 1) - i
        invariant forall v :: j < v < 256 ==> ftabCopy[v] == Equal(keys, v)
        invariant forall p :: 0 <= p < i ==> eclass8[f[p]] == b[f[p]]
        decreases 256 - j
      {
        assert j == 255 ==> Below(keys, j + 1) == nblock;
        BelowNext(keys, j + 1);
        j := j + 1;
      }
      PositionByte(keys, f, i, j);
      ftabCopy[j] := ftabCopy[j] - 1;
      eclass8[fmap[i]] := j;
    }
    forall x | 0 <= x < nblock ensures eclass8[..nblock][x] == b[x] {
      var p := PermSurjective(f, nblock, x);
    }
  }

  lemma PositionByte(keys: seq<int>, f: seq<int>, i: int, j: int)
    requires Bucketed(keys, f, 256) && 0 <= i < |f| && 0 <= j < 256
    requires forall p :: 0 <= p < |keys| ==> 0 <= keys[p] < 256
    requires Below(keys, j) <= i && Below(keys, j + 1) - i >= 0 && Below(keys, j + 1) != i
    ensures 0 <= f[i] < |keys| && keys[f[i]] == j
  {
  }

  lemma StillBucketed(b: Block, f0: seq<int>, f: seq<int>)
    requires Bucketed(Keys(b), f0, 256) && IsPerm(f, |b|) && |f0| == |b|
    requires SameBytes(b, f, f0)
    ensures Bucketed(Keys(b), f, 256)
  {
  }

  /** Sorted on at least as many bytes as the block has. */
  lemma SortedEnough(b: Block, f: seq<int>, h: nat)
    requires IsPerm(f, |b|) && RotSorted(b, f, 0, |b|, h) && h >= |b|
    ensures SortedRotations(b, f)
  {
    forall p, q | 0 <= p < q < |b| ensures Cmp(b, f[p], f[q], |b|) <= 0 {
      CmpExtend(b, f[p], f[q], |b|, h);
    }
  }

  lemma RefinedFacts(b: Block, f: seq<int>, marks: seq<bool>, h: nat)
    requires Refined(b, f, marks, h)
    ensures IsPerm(f, |b|) && RotSorted(b, f, 0, |b|, h)
  {
  }

  /** Sorts the rotations of the block in eclass8[..nblock]; eclass shares its
      memory with eclass8, and the block is intact again at the end. */
  method FallbackSort(fmap: array<int>, eclass: array<int>, eclass8: array<Byte>, bhtab: array<Word>, nblock: int)
    requires 0 < nblock < 0x8000_0000
    requires fmap.Length == eclass.Length == nblock <= eclass8.Length && 32 * bhtab.Length >= nblock + 96
    requires fmap != eclass && fmap as object != eclass8 && eclass as object != eclass8
    requires bhtab as object != fmap && bhtab as object != eclass && bhtab as object != eclass8
    modifies fmap, eclass, eclass8, bhtab
    ensures eclass8[..nblock] == old(eclass8[..nblock])
    ensures SortedRotations(eclass8[..nblock], fmap[..])
  {
    hide Marks, Refined, RotSorted, ClassesOf, Bucketed, SortedRotations, Equal, Below, SameBytes, IsPerm;
    ghost var b: Block := eclass8[..nblock];
    var ftab, ftabCopy := new int[257], new int[256];
    CountBytes(eclass8, nblock, ftab, ftabCopy);
    ghost var counts := ftabCopy[..];
    assert forall v :: 0 <= v < 256 ==> counts[v] == Equal(Keys(b), v);
    Distribute(eclass8, nblock, ftab, fmap);
    ghost var f0 := fmap[..];
    SameBytesSelf(b, f0);
    InitialMarks(ftab, bhtab, nblock, b, f0);
    var H := 1;
    while true
      invariant 1 <= H <= nblock
      invariant Refined(b, fmap[..], Marks(bhtab[..]), H)
      invariant ftabCopy[..] == counts
      invariant SameBytes(b, fmap[..], f0)
      decreases nblock - H
    {
      AssignClasses(fmap, eclass, eclass8, bhtab, H, b);
      ghost var f1 := fmap[..];
      var nNotDone := RefinePass(fmap, eclass, bhtab, H, b);
      SameBytesTrans(b, fmap[..], f1, f0);
      H := H * 2;
      RefinedFacts(b, fmap[..], Marks(bhtab[..]), H);
      if H > nblock || nNotDone == 0 { break; }
    }
    SortedEnough(b, fmap[..], if H > nblock then H else nblock);
    StillBucketed(b, f0, fmap[..]);
    ghost var f := fmap[..];
    Restore(fmap, eclass8, ftabCopy, b);
    assert fmap[..] == f;
  }
}
