/** How much space a decoding table needs: a root table, and for each root prefix that longer codes
    share the smallest sub-table that holds them. */
module InflateSize {
  import opened Bits
  import opened Reversal
  import opened InflateCodes
  import opened InflateTable
  import opened InflateBuild

  // ---- the size, from the lengths ----

  /** The symbol's code is longer than root bits, and these are its first. */
  ghost predicate Under(lens: seq<int>, root: nat, r: nat, s: nat) {
    s < |lens| && lens[s] > root && Low(StreamCode(lens, s), root) == r
  }

  /** How far the longest code under r, among the first n symbols, reaches beyond its first root bits. */
  ghost function Beyond(lens: seq<int>, root: nat, r: nat, n: nat): nat
    requires n <= |lens|
  {
    if n == 0 then 0
    else
      var b := Beyond(lens, root, r, n - 1);
      if Under(lens, root, r, n - 1) && lens[n - 1] - root > b then lens[n - 1] - root else b
  }

  ghost function SubSize(lens: seq<int>, root: nat, r: nat): nat {
    var b := Beyond(lens, root, r, |lens|);
    if b == 0 then 0 else Pow2(b)
  }

  /** The sub-tables under the first n prefixes. */
  ghost function SubSizes(lens: seq<int>, root: nat, n: nat): nat {
    if n == 0 then 0 else SubSizes(lens, root, n - 1) + SubSize(lens, root, n - 1)
  }

  ghost function Needed(lens: seq<int>, root: nat): nat { Pow2(root) + SubSizes(lens, root, Pow2(root)) }

  lemma {:induction false} BeyondIs(lens: seq<int>, root: nat, r: nat, n: nat, b: nat)
    requires n <= |lens| && (forall s: nat :: s < n && Under(lens, root, r, s) ==> lens[s] - root <= b)
    ensures Beyond(lens, root, r, n) <= b
    ensures forall s: nat :: s < n && Under(lens, root, r, s) ==> lens[s] - root <= Beyond(lens, root, r, n)
  {
    hide Under;
    if n > 0 {
      BeyondIs(lens, root, r, n - 1, b);
      forall s: nat | s < n && Under(lens, root, r, s) ensures lens[s] - root <= Beyond(lens, root, r, n) {
        UnderLonger(lens, root, r, s);
      }
      if Under(lens, root, r, n - 1) { UnderLonger(lens, root, r, n - 1); }
    }
  }

  lemma UnderLonger(lens: seq<int>, root: nat, r: nat, s: nat)
    requires Under(lens, root, r, s)
    ensures s < |lens| && lens[s] > root
  {
  }

  lemma {:induction false} NothingBeyond(lens: seq<int>, root: nat, n: nat)
    requires forall s :: 0 <= s < |lens| ==> lens[s] <= root
    ensures SubSizes(lens, root, n) == 0
  {
    if n > 0 {
      NothingBeyond(lens, root, n - 1);
      BeyondIs(lens, root, n - 1, |lens|, 0);
    }
  }

  // ---- the size, as far as the codes have been entered ----

  /** One of the first k codes has a sub-table under r. */
  ghost predicate Seen(c: Code, k: nat, r: nat)
    requires Good(c)
  {
    exists j: nat :: j < k && j < |c.work| && Len(c, j) > c.root && Low(Huff(c, j), c.root) == r
  }

  ghost function SeenSizes(c: Code, k: nat, n: nat): nat
    requires Good(c)
  {
    if n == 0 then 0 else SeenSizes(c, k, n - 1) + if Seen(c, k, n - 1) then SubSize(c.lens, c.root, n - 1) else 0
  }

  lemma {:induction false} SeenSame(c: Code, k: nat, k': nat, n: nat)
    requires Good(c) && forall r: nat :: r < n ==> (Seen(c, k, r) <==> Seen(c, k', r))
    ensures SeenSizes(c, k, n) == SeenSizes(c, k', n)
  {
    hide Seen, SubSize, Good;
    if n > 0 { SeenSame(c, k, k', n - 1); }
  }

  /** A code that opens no sub-table. */
  lemma SeenStays(c: Code, k: nat, n: nat)
    requires Good(c) && k < |c.work|
    requires Len(c, k) <= c.root || (k > 0 && Len(c, k - 1) > c.root
                                     && Low(Huff(c, k - 1), c.root) == Low(Huff(c, k), c.root))
    ensures SeenSizes(c, k + 1, n) == SeenSizes(c, k, n)
  {
    hide Good, Low, Huff, Len, SubSize;
    var k' := k + 1;
    forall r: nat | r < n ensures Seen(c, k, r) <==> Seen(c, k', r) {
      if Seen(c, k', r) {
        var j: nat :| j < k' && j < |c.work| && Len(c, j) > c.root && Low(Huff(c, j), c.root) == r;
        if j == k { assert k - 1 < k && Low(Huff(c, k - 1), c.root) == r; }
      }
    }
    SeenSame(c, k, k', n);
  }

  lemma SeenNothing(c: Code, n: nat)
    requires Good(c) && 0 < |c.work| && Len(c, 0) <= c.root
    ensures SeenSizes(c, 1, n) == 0
  {
    hide Good, Low, Huff, Len, SubSize;
    SeenStays(c, 0, n);
    SeenZero(c, n);
  }

  lemma {:induction false} SeenZero(c: Code, n: nat)
    requires Good(c)
    ensures SeenSizes(c, 0, n) == 0
  {
    hide Good, Low, Huff, Len, SubSize;
    if n > 0 { SeenZero(c, n - 1); }
  }

  /** A code under a new prefix. */
  lemma {:induction false} SeenMore(c: Code, k: nat, n: nat)
    requires Good(c) && k < |c.work| && Len(c, k) > c.root && !Seen(c, k, Low(Huff(c, k), c.root))
    ensures SeenSizes(c, k + 1, n)
            == SeenSizes(c, k, n) + if Low(Huff(c, k), c.root) < n then SubSize(c.lens, c.root, Low(Huff(c, k), c.root))
                                    else 0
  {
    hide Good, Low, Huff, Len, SubSize;
    if n > 0 {
      SeenMore(c, k, n - 1);
      var r: nat := n - 1;
      assert Seen(c, k + 1, r) <==> Seen(c, k, r) || r == Low(Huff(c, k), c.root) by {
        if Seen(c, k, r) {
          var j: nat :| j < k && j < |c.work| && Len(c, j) > c.root && Low(Huff(c, j), c.root) == r;
          assert j < k + 1;
        }
        if r == Low(Huff(c, k), c.root) { assert k < k + 1; }
      }
    }
  }

  lemma {:induction false} SeenAtMost(c: Code, k: nat, n: nat)
    requires Good(c)
    ensures SeenSizes(c, k, n) <= SubSizes(c.lens, c.root, n)
  {
    hide Good, Seen, SubSize;
    if n > 0 { SeenAtMost(c, k, n - 1); }
  }

  lemma {:induction false} SeenAll(c: Code, n: nat)
    requires Good(c)
    ensures SeenSizes(c, |c.work|, n) == SubSizes(c.lens, c.root, n)
  {
    hide Good, Seen;
    if n > 0 {
      SeenAll(c, n - 1);
      var r := n - 1;
      if !Seen(c, |c.work|, r) {
        forall s: nat | s < |c.lens| ensures !Under(c.lens, c.root, r, s) {
          if Under(c.lens, c.root, r, s) { UnderSeen(c, r, s); }
        }
        BeyondIs(c.lens, c.root, r, |c.lens|, 0);
      }
    }
  }

  lemma CodeFor(c: Code, s: nat) returns (k: nat)
    requires Good(c) && s < |c.lens| && c.lens[s] > 0
    ensures k < |c.work| && c.work[k] == s && Len(c, k) == c.lens[s] && Huff(c, k) == StreamCode(c.lens, s)
  {
    assert s in c.work;
    var j :| 0 <= j < |c.work| && c.work[j] == s;
    k := j;
    HuffIs(c, k);
  }

  lemma UnderSeen(c: Code, r: nat, s: nat)
    requires Good(c) && Under(c.lens, c.root, r, s)
    ensures Seen(c, |c.work|, r)
  {
    var k := CodeFor(c, s);
    hide Good, Low, Huff, Len;
  }

  // ---- a new sub-table is as large as it must be ----

  /** The next code that is at least T bits long comes after the shorter ones. */
  lemma {:induction false} FirstLong(c: Code, k: nat, T: nat) returns (j: nat)
    requires Good(c) && k < |c.work| && 0 < T <= c.m
    ensures k <= j < |c.work| && Len(c, j) >= T
    ensures Val(c, k) <= Val(c, j) <= Val(c, k) + Space(c, k, T - 1) * Pow2(c.m - (T - 1))
    decreases |c.work| - k
  {
    hide Good, Pow2, Val, Len;
    if Len(c, k) >= T {
      j := k;
      MulMono(0, Space(c, k, T - 1), Pow2(c.m - (T - 1)));
    } else {
      LenMax(c, k);
      j := FirstLong(c, k + 1, T);
      ValNext(c, k);
      Pow2Add(T - 1 - Len(c, k), c.m - (T - 1));
      SumTimes(Pow2(T - 1 - Len(c, k)), Space(c, k + 1, T - 1), Pow2(c.m - (T - 1)));
      Pow2Pos(c.m - Len(c, k));
    }
  }

  /** The k-th code is the first under its prefix. */
  ghost predicate Opens(c: Code, k: nat)
    requires Good(c)
  {
    0 < k < |c.work| && Len(c, k) > c.root
    && (Len(c, k - 1) > c.root ==> Low(Huff(c, k - 1), c.root) != Low(Huff(c, k), c.root))
  }

  /** The codes before it fill whole prefixes. */
  lemma OpensAligned(c: Code, k: nat)
    requires Good(c) && Opens(c, k) && c.root <= c.m
    ensures Val(c, k) == High(Val(c, k), c.m - c.root) * Pow2(c.m - c.root)
  {
    hide Good, Pow2, Val, Low, High, Rev, CodeOf, Huff;
    var l, n := Len(c, k - 1), c.m - c.root;
    HuffIs(c, k - 1);
    ValNext(c, k - 1);
    var v := CodeOf(c.lens, c.work[k - 1]);
    SumTimes(v, 1, Pow2(c.m - l));
    if l <= c.root {
      Pow2Add(c.root - l, n);
      Regroup3(v + 1, Pow2(c.root - l), Pow2(n));
      PartsAre(Val(c, k), n, (v + 1) * Pow2(c.root - l), 0);
    } else {
      PrefixIs(c, k - 1);
      PrefixIs(c, k);
      HighMono(Val(c, k - 1), Val(c, k), n);
      HighLow(Val(c, k - 1), n);
      HighLow(Val(c, k), n);
      Pow2Add(l - c.root, c.m - l);
      NextMultiple(v, Pow2(c.m - l), Pow2(l - c.root), High(Val(c, k - 1), n), Low(Val(c, k - 1), n),
                   High(Val(c, k), n), Low(Val(c, k), n));
    }
  }

  lemma Regroup3(v: nat, a: nat, b: nat)
    ensures v * (a * b) == (v * a) * b
  {
  }

  /** Between two multiples of u, a multiple of a * u is one of them. */
  lemma NextMultiple(v: nat, u: nat, a: nat, h: nat, r: nat, h': nat, r': nat)
    requires u > 0 && v * u == h * (a * u) + r && r < a * u && (v + 1) * u == h' * (a * u) + r' && h < h'
    ensures r' == 0
  {
    var d := a * u;
    MulMono(h + 1, h', d);
    SumTimes(h, 1, d);
    Regroup3(h', a, u);
    if v >= h' * a { MulMono(h' * a, v, u); }
    MulMono(v + 1, h' * a, u);
  }

  /** If the codes of fewer than T bits leave space, one of at least T bits follows under the same prefix. */
  lemma SomeLong(c: Code, k: nat, T: nat) returns (j: nat)
    requires Good(c) && Opens(c, k) && c.root < T <= c.m && Space(c, k, T - 1) < Pow2(T - 1 - c.root)
    ensures k <= j < |c.work| && Len(c, j) >= T && Low(Huff(c, j), c.root) == Low(Huff(c, k), c.root)
  {
    hide Good, Pow2, Val, Low, High, Rev, Huff, Len, Space;
    j := FirstLong(c, k, T);
    OpensAligned(c, k);
    var n, b := c.m - c.root, Pow2(c.m - (T - 1));
    Pow2Add(T - 1 - c.root, c.m - (T - 1));
    MulMono(Space(c, k, T - 1) + 1, Pow2(T - 1 - c.root), b);
    SumTimes(Space(c, k, T - 1), 1, b);
    Pow2Pos(c.m - (T - 1));
    PartsAre(Val(c, j), n, High(Val(c, k), n), Val(c, j) - Val(c, k));
    PrefixIs(c, j);
    PrefixIs(c, k);
  }

  /** No earlier code lies under the prefix of one that opens it. */
  lemma OpensFirst(c: Code, k: nat, j: nat)
    requires Good(c) && Opens(c, k) && j < k && Len(c, j) > c.root
    ensures Low(Huff(c, j), c.root) != Low(Huff(c, k), c.root)
  {
    hide Good, Low, Huff, Len;
    if Low(Huff(c, j), c.root) == Low(Huff(c, k), c.root) {
      LenMono(c, j, k - 1);
      PrefixBetween(c, j, k - 1, k);
      assert false;
    }
  }

  lemma OpensNew(c: Code, k: nat)
    requires Good(c) && Opens(c, k)
    ensures !Seen(c, k, Low(Huff(c, k), c.root))
  {
    hide Good, Low, Huff, Len;
    var r := Low(Huff(c, k), c.root);
    if Seen(c, k, r) {
      var j: nat :| j < k && j < |c.work| && Len(c, j) > c.root && Low(Huff(c, j), c.root) == r;
      OpensFirst(c, k, j);
      assert false;
    }
  }

  /** Room for all codes under the prefix, and one that needs it: the smallest sub-table. */
  lemma SizeIs(c: Code, k: nat, curr: nat, j: nat, p: Spot)
    requires Good(c) && Opens(c, k) && Roomy(c, k, p) && p.low == Low(Huff(c, k), c.root) && p.curr == curr >= 1
    requires k <= j < |c.work| && Len(c, j) == c.root + curr && Low(Huff(c, j), c.root) == p.low
    ensures SubSize(c.lens, c.root, Low(Huff(c, k), c.root)) == Pow2(curr)
  {
    hide Good, Low, Huff, Len, Pow2, Beyond, Roomy, Under;
    var r, n := Low(Huff(c, k), c.root), |c.lens|;
    forall s: nat | s < n && Under(c.lens, c.root, r, s) ensures c.lens[s] - c.root <= curr {
      UnderFits(c, k, p, s);
    }
    BeyondIs(c.lens, c.root, r, n, curr);
    IsUnder(c, j, r);
  }

  lemma UnderFits(c: Code, k: nat, p: Spot, s: nat)
    requires Good(c) && Opens(c, k) && Roomy(c, k, p) && p.low == Low(Huff(c, k), c.root) && p.curr >= 0
    requires Under(c.lens, c.root, Low(Huff(c, k), c.root), s)
    ensures s < |c.lens| && c.lens[s] - c.root <= p.curr
  {
    var i := CodeFor(c, s);
    hide Good, Low, Huff, Len, Opens, StreamCode;
    if i < k { OpensFirst(c, k, i); }
  }

  lemma IsUnder(c: Code, j: nat, r: nat)
    requires Good(c) && j < |c.work| && Len(c, j) > c.root && Low(Huff(c, j), c.root) == r
    ensures 0 <= c.work[j] < |c.lens| && c.lens[c.work[j]] == Len(c, j) && Under(c.lens, c.root, r, c.work[j])
  {
    HuffIs(c, j);
    hide Good, Low, StreamCode, Huff;
  }
}
