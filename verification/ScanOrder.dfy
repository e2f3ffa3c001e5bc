/** Why scanning a sorted big bucket yields the small buckets that precede it:
    the predecessors of an ordered list of rotations, taken by first byte, are
    themselves in order. */
module ScanOrder {
  import opened Bits
  import opened Sequences
  import opened Rotations
  import opened RotationRank
  import opened Permutations
  import opened Radix

  function PairKey(c: int, d: int): int { c * 256 + d }

  /** The first two bytes of each rotation, as one key. */
  ghost function PairKeys(b: Block): (k: seq<int>)
    ensures |k| == |b|
    ensures forall x :: 0 <= x < |b| ==> k[x] == PairKey(b[x], b[Step(|b|, x)]) && 0 <= k[x] < 65536
  {
    seq(|b|, x requires 0 <= x < |b| => PairKey(b[x], b[Step(|b|, x)]))
  }

  /** First position of small bucket sb. */
  ghost function Start(b: Block, sb: int): (p: nat)
    ensures p <= |b|
  {
    Below(PairKeys(b), sb)
  }

  lemma StartMono(b: Block, v: int, w: int)
    requires v <= w
    ensures Start(b, v) <= Start(b, w)
  {
    BelowMono(PairKeys(b), v, w);
  }

  /** The rotations that start with byte c and then byte ss. */
  ghost function Pair(b: Block, c: int, ss: int): (s: set<int>)
    ensures forall x :: x in s <==> 0 <= x < |b| && b[x] == c && b[Step(|b|, x)] == ss
  {
    set x | x in UpTo(|b|) && b[x] == c && b[Step(|b|, x)] == ss
  }

  ghost function KeySet(keys: seq<int>, v: int): (s: set<int>)
    ensures forall x :: x in s <==> 0 <= x < |keys| && keys[x] == v
  {
    set x | x in UpTo(|keys|) && keys[x] == v
  }

  lemma {:induction false} KeySetCount(keys: seq<int>, v: int)
    ensures |KeySet(keys, v)| == Equal(keys, v)
  {
    if keys == [] {
      assert KeySet(keys, v) == {};
    } else {
      var k := |keys| - 1;
      KeySetCount(keys[..k], v);
      if keys[k] == v {
        assert KeySet(keys, v) == KeySet(keys[..k], v) + {k};
      } else {
        assert KeySet(keys, v) == KeySet(keys[..k], v);
      }
    }
  }

  /** A small bucket has room for exactly its rotations. */
  lemma PairCount(b: Block, c: Byte, ss: Byte)
    ensures Start(b, PairKey(c, ss) + 1) == Start(b, PairKey(c, ss)) + |Pair(b, c, ss)|
  {
    BelowNext(PairKeys(b), PairKey(c, ss));
    KeySetCount(PairKeys(b), PairKey(c, ss));
    assert KeySet(PairKeys(b), PairKey(c, ss)) == Pair(b, c, ss);
  }

  // ---- which side of the all-ss string a rotation lies on ----

  /** The rotation at x against h copies of the byte c. */
  ghost function Side(b: Block, x: int, c: int, h: nat): (r: int)
    requires 0 <= x < |b|
    ensures -1 <= r <= 1
    decreases h
  {
    if h == 0 then 0
    else if b[x] < c then -1
    else if b[x] > c then 1
    else Side(b, Step(|b|, x), c, h - 1)
  }

  lemma {:induction false} SideExtend(b: Block, x: int, c: int, h: nat, h': nat)
    requires 0 <= x < |b| && h <= h'
    ensures Side(b, x, c, h) != 0 ==> Side(b, x, c, h') == Side(b, x, c, h)
    decreases h
  {
    if h > 0 && b[x] == c { SideExtend(b, Step(|b|, x), c, h - 1, h' - 1); }
  }

  /** Below the string of cs comes before above it. */
  lemma {:induction false} SidesOrder(b: Block, x: int, y: int, c: int, h: nat)
    requires 0 <= x < |b| && 0 <= y < |b|
    requires Side(b, x, c, h) < 0 < Side(b, y, c, h)
    ensures Cmp(b, x, y, h) < 0
    decreases h
  {
    if b[x] == c == b[y] { SidesOrder(b, Step(|b|, x), Step(|b|, y), c, h - 1); }
  }

  lemma {:induction false} SideZero(b: Block, x: int, c: int, h: nat, t: nat)
    requires 0 <= x < |b| && t < h <= |b| && Side(b, x, c, h) == 0
    ensures b[Fwd(|b|, x, t)] == c
    decreases t
  {
    if t > 0 {
      SideZero(b, Step(|b|, x), c, h - 1, t - 1);
      assert Fwd(|b|, Step(|b|, x), t - 1) == Fwd(|b|, x, t);
    }
  }

  /** Neither below nor above: every byte of the block is c. */
  lemma SideAll(b: Block, x: int, c: int)
    requires 0 <= x < |b| && Side(b, x, c, |b|) == 0
    ensures forall i :: 0 <= i < |b| ==> b[i] == c
  {
    forall i | 0 <= i < |b| ensures b[i] == c {
      var t := if i >= x then i - x else i - x + |b|;
      SideZero(b, x, c, |b|, t);
      assert Fwd(|b|, x, t) == i;
    }
  }

  /** A c in front does not change sides. */
  lemma SideStep(b: Block, x: int, c: int)
    requires 0 <= x < |b| && b[x] == c
    ensures Side(b, x, c, |b|) == Side(b, Step(|b|, x), c, |b|)
  {
    var y := Step(|b|, x);
    SideExtend(b, x, c, |b|, |b| + 1);
    SideExtend(b, y, c, |b| - 1, |b|);
    if Side(b, x, c, |b|) == 0 {
      SideAll(b, x, c);
      AllSide(b, y, c, |b|);
    }
  }

  lemma {:induction false} AllSide(b: Block, x: int, c: int, h: nat)
    requires 0 <= x < |b| && forall i :: 0 <= i < |b| ==> b[i] == c
    ensures Side(b, x, c, h) == 0
    decreases h
  {
    if h > 0 { AllSide(b, Step(|b|, x), c, h - 1); }
  }

  // ---- predecessors ----

  /** Those predecessors of s that begin with byte c, in the order of s. */
  ghost function Preds(b: Block, s: seq<int>, c: int): (r: seq<int>)
    ensures |r| <= |s|
  {
    if s == [] then []
    else
      var x := s[|s| - 1];
      Preds(b, s[..|s| - 1], c) + (if 0 <= x < |b| && b[Back(|b|, x, 1)] == c then [Back(|b|, x, 1)] else [])
  }

  lemma {:induction false} PredsMember(b: Block, s: seq<int>, c: int, x: int)
    ensures x in Preds(b, s, c) <==> 0 <= x < |b| && b[x] == c && Step(|b|, x) in s
  {
    if s != [] {
      var k := |s| - 1;
      PredsMember(b, s[..k], c, x);
      assert s == s[..k] + [s[k]];
      if 0 <= x < |b| {
        assert Back(|b|, Step(|b|, x), 1) == x;
      }
      if 0 <= s[k] < |b| {
        assert Step(|b|, Back(|b|, s[k], 1)) == s[k];
      }
    }
  }

  lemma {:induction false} PredsDistinct(b: Block, s: seq<int>, c: int)
    requires Distinct(s)
    ensures Distinct(Preds(b, s, c))
  {
    if s != [] {
      var k := |s| - 1;
      PredsDistinct(b, s[..k], c);
      var x := s[k];
      if 0 <= x < |b| {
        PredsMember(b, s[..k], c, Back(|b|, x, 1));
        assert Step(|b|, Back(|b|, x, 1)) == x;
        assert x !in s[..k];
      }
    }
  }

  /** x may come before y when scanning in the given direction. */
  ghost predicate Precedes(b: Block, x: int, y: int, up: bool)
    requires 0 <= x < |b| && 0 <= y < |b|
  {
    if up then Ranks(b)[x] <= Ranks(b)[y] else Ranks(b)[y] <= Ranks(b)[x]
  }

  /** In scanning order: nondecreasing rank going up, nonincreasing going down. */
  ghost predicate InScanOrder(b: Block, s: seq<int>, up: bool) {
    && (forall i :: 0 <= i < |s| ==> 0 <= s[i] < |b|)
    && (forall i, j :: 0 <= i < j < |s| ==> Precedes(b, s[i], s[j], up))
  }

  /** Two rotations with the same first byte are ordered as what follows it is. */
  lemma PredRank(b: Block, x: int, y: int, up: bool)
    requires 0 <= x < |b| && 0 <= y < |b| && b[x] == b[y]
    requires Precedes(b, Step(|b|, x), Step(|b|, y), up)
    ensures Precedes(b, x, y, up)
  {
    var x', y', n := Step(|b|, x), Step(|b|, y), |b|;
    if up {
      RankOrder(b, x', y');
      RankOrder(b, x, y);
      CmpExtend(b, x', y', n - 1, n);
    } else {
      RankOrder(b, y', x');
      RankOrder(b, y, x);
      CmpExtend(b, y', x', n - 1, n);
    }
  }

  lemma {:induction false} PredsOrdered(b: Block, s: seq<int>, c: int, up: bool)
    requires InScanOrder(b, s, up)
    ensures InScanOrder(b, Preds(b, s, c), up)
  {
    hide Ranks, Precedes;
    if s != [] {
      var k := |s| - 1;
      PredsOrdered(b, s[..k], c, up);
      var r0, x := Preds(b, s[..k], c), s[k];
      var y := Back(|b|, x, 1);
      if b[y] == c {
        forall i | 0 <= i < |r0| ensures 0 <= r0[i] < |b| && Precedes(b, r0[i], y, up) {
          PredsBefore(b, s, c, up, r0[i]);
        }
      }
    }
  }

  lemma PredsBefore(b: Block, s: seq<int>, c: int, up: bool, z: int)
    requires s != [] && InScanOrder(b, s, up) && z in Preds(b, s[..|s| - 1], c)
    requires b[Back(|b|, s[|s| - 1], 1)] == c
    ensures 0 <= z < |b| && Precedes(b, z, Back(|b|, s[|s| - 1], 1), up)
  {
    hide Preds, Ranks, Precedes;
    var k := |s| - 1;
    var y := Back(|b|, s[k], 1);
    assert Step(|b|, y) == s[k];
    PredsMember(b, s[..k], c, z);
    var j :| 0 <= j < k && s[..k][j] == Step(|b|, z);
    assert Precedes(b, s[j], s[k], up);
    PredRank(b, z, y, up);
  }

  /** The predecessors with byte c, as a set. */
  ghost function PredSet(b: Block, s: seq<int>, c: int): (r: set<int>)
    ensures forall x :: x in r <==> 0 <= x < |b| && b[x] == c && Step(|b|, x) in s
  {
    set x | x in UpTo(|b|) && b[x] == c && Step(|b|, x) in s
  }

  lemma PredSetSize(b: Block, s: seq<int>, c: int)
    requires Distinct(s)
    ensures |PredSet(b, s, c)| == |Preds(b, s, c)|
  {
    hide Preds;
    var p := Preds(b, s, c);
    PredsDistinct(b, s, c);
    DistinctCount(p, |p|);
    var u := set i | 0 <= i < |p| :: p[i];
    forall x ensures x in u <==> x in PredSet(b, s, c) { PredsMember(b, s, c, x); }
    assert u == PredSet(b, s, c);
  }

  /** Distinct lists of rotations from one big bucket, one on each side: their
      predecessors with byte c fit into the small bucket, and fill it when the
      lists cover all successors. */
  lemma PredsFit(b: Block, s: seq<int>, s': seq<int>, c: Byte, ss: Byte)
    requires Distinct(s) && Distinct(s')
    requires forall x :: x in s ==> 0 <= x < |b| && b[x] == ss && x !in s'
    requires forall x :: x in s' ==> 0 <= x < |b| && b[x] == ss
    ensures |Preds(b, s, c)| + |Preds(b, s', c)| <= |Pair(b, c, ss)|
    ensures (forall x :: x in Pair(b, c, ss) ==> Step(|b|, x) in s || Step(|b|, x) in s') ==>
              |Preds(b, s, c)| + |Preds(b, s', c)| == |Pair(b, c, ss)|
  {
    hide Preds;
    var u, u' := PredSet(b, s, c), PredSet(b, s', c);
    PredSetSize(b, s, c);
    PredSetSize(b, s', c);
    assert u !! u';
    assert |u + u'| == |u| + |u'|;
    SubsetSize(u + u', Pair(b, c, ss));
    if forall x :: x in Pair(b, c, ss) ==> Step(|b|, x) in s || Step(|b|, x) in s' {
      assert u + u' == Pair(b, c, ss);
    }
  }
}
