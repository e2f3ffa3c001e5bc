/** The forest built while merging the two lightest nodes: weights bound heights as
    Fibonacci numbers do, and the leaves of the finished tree fill the code space. */
module HuffmanForest {
  import opened Bits

  const MAX_ALPHA := 258

  const ROOM := 516  // twice the largest alphabet

  /** A weight word: the count above eight bits of height. */
  function Count(w: int): int { w / 256 }

  function Height(w: int): (h: nat)
    ensures h < 256
  {
    w % 256
  }

  function Weight(c: int, h: int): int { c * 256 + h }

  /** The least total count of a tree of height h. */
  function Least(h: nat): (c: nat)
    ensures c >= 1
  {
    if h == 0 then 1 else if h == 1 then 2 else Least(h - 1) + Least(h - 2)
  }

  lemma {:induction false} LeastMono(g: nat, h: nat)
    requires g <= h
    ensures Least(g) <= Least(h)
  {
    if g < h { LeastMono(g, h - 1); }
  }

  lemma LeastValues()
    ensures Least(13) == 610 && Least(34) == 14930352
  {
    assert Least(0) == 1 && Least(1) == 2 && Least(2) == 3 && Least(3) == 5 && Least(4) == 8 && Least(5) == 13;
    assert Least(6) == 21;
    assert Least(7) == 34;
    assert Least(8) == 55;
    assert Least(9) == 89;
    assert Least(10) == 144;
    assert Least(11) == 233;
    assert Least(12) == 377;
    assert Least(13) == 610;
    assert Least(14) == 987;
    assert Least(15) == 1597;
    assert Least(16) == 2584;
    assert Least(17) == 4181;
    assert Least(18) == 6765;
    assert Least(19) == 10946;
    assert Least(20) == 17711;
    assert Least(21) == 28657;
    assert Least(22) == 46368;
    assert Least(23) == 75025;
    assert Least(24) == 121393;
    assert Least(25) == 196418;
    assert Least(26) == 317811;
    assert Least(27) == 514229;
    assert Least(28) == 832040;
    assert Least(29) == 1346269;
    assert Least(30) == 2178309;
    assert Least(31) == 3524578;
    assert Least(32) == 5702887;
    assert Least(33) == 9227465;
  }

  lemma LowEnough(c: int, h: nat, g: nat)
    requires Least(h) <= c < Least(g)
    ensures h < g
  {
    if h >= g { LeastMono(g, h); }
  }

  // ---- shape ----

  /** Parents have higher numbers and greater heights; every inner node has two children. */
  ghost predicate Linked(n: int, N: int, w: seq<int>, P: seq<int>, kids: seq<(int, int)>) {
    && 1 <= n <= N < ROOM && |w| == |P| == |kids| == ROOM
    && (forall k :: 1 <= k <= N ==> P[k] == -1 || (k < P[k] <= N && n < P[k] && Height(w[k]) < Height(w[P[k]])))
    && (forall m :: n < m <= N ==>
                      1 <= kids[m].0 < m && 1 <= kids[m].1 < m && kids[m].0 != kids[m].1 && P[kids[m].0] == m
                      && P[kids[m].1] == m)
    && (forall k :: 1 <= k <= N && P[k] != -1 ==> k == kids[P[k]].0 || k == kids[P[k]].1)
  }

  /** Every node weighs at least what its height needs. */
  ghost predicate Heavy(N: int, w: seq<int>) {
    && 1 <= N < ROOM && |w| == ROOM
    && (forall k :: 1 <= k <= N ==> w[k] >= 0 && Least(Height(w[k])) <= Count(w[k]))
  }

  /** No root is lighter than the second of the last two merged, and none is higher than that allows. */
  ghost predicate Settled(N: int, w: seq<int>, P: seq<int>, mx: int) {
    && 1 <= N < ROOM && |w| == |P| == ROOM && mx >= 1
    && (forall k :: 1 <= k <= N && P[k] == -1 ==>
                      mx <= Count(w[k]) && (Height(w[k]) >= 1 ==> Least(Height(w[k]) - 1) <= mx))
  }

  ghost predicate Roots(N: int, P: seq<int>, r: set<int>) {
    0 <= N < |P| && forall k :: k in r <==> 1 <= k <= N && P[k] == -1
  }

  ghost function RootSum(w: seq<int>, P: seq<int>, N: int): (s: int)
    requires 0 <= N < |w| && N < |P|
  {
    if N == 0 then 0 else RootSum(w, P, N - 1) + (if P[N] == -1 then Count(w[N]) else 0)
  }

  lemma {:induction false} RootSumSame(w: seq<int>, P: seq<int>, w': seq<int>, P': seq<int>, N: int)
    requires 0 <= N < |w| == |w'| && N < |P| == |P'|
    requires forall k :: 1 <= k <= N ==> w[k] == w'[k] && P[k] == P'[k]
    ensures RootSum(w, P, N) == RootSum(w', P', N)
  {
    if N > 0 { RootSumSame(w, P, w', P', N - 1); }
  }

  lemma {:induction false} RootSumDrop(w: seq<int>, P: seq<int>, N: int, k: int, m: int)
    requires 1 <= k <= N < |w| && N < |P| && P[k] == -1 && m != -1
    ensures RootSum(w, P[k := m], N) == RootSum(w, P, N) - Count(w[k])
  {
    if k == N {
      RootSumSame(w, P, w, P[k := m], N - 1);
    } else {
      RootSumDrop(w, P, N - 1, k, m);
    }
  }

  /** A root is no heavier than all of them. */
  lemma {:induction false} RootInSum(w: seq<int>, P: seq<int>, N: int, k: int)
    requires 1 <= k <= N < |w| && N < |P| && P[k] == -1 && forall i :: 1 <= i <= N ==> w[i] >= 0
    ensures Count(w[k]) <= RootSum(w, P, N) && RootSum(w, P, N) >= 0
    decreases N
  {
    if k == N {
      RootSumNat(w, P, N - 1);
    } else {
      RootInSum(w, P, N - 1, k);
    }
  }

  lemma {:induction false} RootSumNat(w: seq<int>, P: seq<int>, N: int)
    requires 0 <= N < |w| && N < |P| && forall i :: 1 <= i <= N ==> w[i] >= 0
    ensures RootSum(w, P, N) >= 0
  {
    if N > 0 { RootSumNat(w, P, N - 1); }
  }

  // ---- merging ----

  /** The state after merging roots a and b under new node N + 1. */
  ghost predicate Merges(N: int, w: seq<int>, P: seq<int>, kids: seq<(int, int)>, a: int, b: int, w': seq<int>,
      P': seq<int>, kids': seq<(int, int)>)
  {
    && 1 <= N < ROOM - 1 && |w| == |P| == |kids| == ROOM && 1 <= a <= N && 1 <= b <= N && a != b && P[a] == -1
       && P[b] == -1
    && var h := 1 + if Height(w[a]) > Height(w[b]) then Height(w[a]) else Height(w[b]);
    w' == w[N + 1 := Weight(Count(w[a]) + Count(w[b]), h)] && P' == P[a := N + 1][b := N + 1][N + 1 := -1]
      && kids' == kids[N + 1 := (a, b)] && h < 256
  }

  lemma MergedWeight(c: int, h: int)
    requires 0 <= h < 256
    ensures Count(Weight(c, h)) == c && Height(Weight(c, h)) == h
  {
  }

  lemma MergeLinked(n: int, N: int, w: seq<int>, P: seq<int>, kids: seq<(int, int)>, a: int, b: int, w': seq<int>,
      P': seq<int>, kids': seq<(int, int)>)
    requires Linked(n, N, w, P, kids) && Merges(N, w, P, kids, a, b, w', P', kids')
    ensures Linked(n, N + 1, w', P', kids')
  {
    hide Count, Height, Weight;
    MergedWeight(Count(w[a]) + Count(w[b]), 1 + if Height(w[a]) > Height(w[b]) then Height(w[a]) else Height(w[b]));
    forall k | 1 <= k <= N + 1 && P'[k] != -1
      ensures k < P'[k] <= N + 1 && n < P'[k] && Height(w'[k]) < Height(w'[P'[k]])
      ensures k == kids'[P'[k]].0 || k == kids'[P'[k]].1
    {
    }
    forall m | n < m <= N + 1
      ensures 1 <= kids'[m].0 < m && 1 <= kids'[m].1 < m && kids'[m].0 != kids'[m].1 && P'[kids'[m].0] == m
              && P'[kids'[m].1] == m
    {
      if m <= N {
        assert P[kids[m].0] == m && P[kids[m].1] == m;
      }
    }
  }

  /** The Fibonacci argument: the taller of the two is as heavy as its height needs, and
      the other no lighter than what the taller one's own taller child weighed. */
  lemma MergeHeavy(N: int, w: seq<int>, P: seq<int>, kids: seq<(int, int)>, a: int, b: int, w': seq<int>, P': seq<int>,
      kids': seq<(int, int)>, mx: int)
    requires Heavy(N, w) && Settled(N, w, P, mx) && Merges(N, w, P, kids, a, b, w', P', kids')
    requires w[a] <= w[b] && forall k :: 1 <= k <= N && k != a && P[k] == -1 ==> w[b] <= w[k]
    ensures Heavy(N + 1, w') && Settled(N + 1, w', P', Count(w[b]))
  {
    var (ha, hb) := (Height(w[a]), Height(w[b]));
    var t := if ha > hb then ha else hb;
    MergedWeight(Count(w[a]) + Count(w[b]), 1 + t);
    assert Count(w[a]) <= Count(w[b]);
    hide Height, Weight;
    assert Least(t) <= Count(w[b]);
    assert t == 0 ==> Least(t + 1) == 2;
    assert t > 0 ==> Least(t + 1) == Least(t) + Least(t - 1);
    assert Least(t + 1) <= Count(w[a]) + Count(w[b]);
    forall k | 1 <= k <= N + 1 && P'[k] == -1
      ensures Count(w[b]) <= Count(w'[k]) && (Height(w'[k]) >= 1 ==> Least(Height(w'[k]) - 1) <= Count(w[b]))
    {
      MergedRoot(N, w, P, kids, a, b, w', P', kids', mx, k);
    }
  }

  /** A root after the merge is the new one, or was one before. */
  lemma MergedRoot(N: int, w: seq<int>, P: seq<int>, kids: seq<(int, int)>, a: int, b: int, w': seq<int>, P': seq<int>,
      kids': seq<(int, int)>, mx: int, k: int)
    requires Heavy(N, w) && Settled(N, w, P, mx) && Merges(N, w, P, kids, a, b, w', P', kids')
    requires w[a] <= w[b] && forall k :: 1 <= k <= N && k != a && P[k] == -1 ==> w[b] <= w[k]
    requires 1 <= k <= N + 1 && P'[k] == -1
    ensures Count(w[b]) <= Count(w'[k]) && (Height(w'[k]) >= 1 ==> Least(Height(w'[k]) - 1) <= Count(w[b]))
  {
    var (ha, hb) := (Height(w[a]), Height(w[b]));
    var t := if ha > hb then ha else hb;
    if k <= N {
      assert P[k] == -1 && k != a && k != b;
    } else {
      MergedWeight(Count(w[a]) + Count(w[b]), 1 + t);
    }
  }

  lemma MergeSum(N: int, w: seq<int>, P: seq<int>, kids: seq<(int, int)>, a: int, b: int, w': seq<int>, P': seq<int>,
      kids': seq<(int, int)>)
    requires Merges(N, w, P, kids, a, b, w', P', kids')
    ensures RootSum(w', P', N + 1) == RootSum(w, P, N)
  {
    hide Count, Height, Weight;
    MergedWeight(Count(w[a]) + Count(w[b]), 1 + if Height(w[a]) > Height(w[b]) then Height(w[a]) else Height(w[b]));
    RootSumDrop(w, P, N, a, N + 1);
    RootSumDrop(w, P[a := N + 1], N, b, N + 1);
    RootSumSame(w', P', w, P[a := N + 1][b := N + 1], N);
  }

  lemma MergeRoots(N: int, w: seq<int>, P: seq<int>, kids: seq<(int, int)>, a: int, b: int, w': seq<int>, P': seq<int>,
      kids': seq<(int, int)>, r: set<int>)
    requires Roots(N, P, r) && Merges(N, w, P, kids, a, b, w', P', kids')
    ensures Roots(N + 1, P', r - {a} - {b} + {N + 1}) && N + 1 !in r
  {
  }

  // ---- depth and the code space ----

  /** How many steps up to a root. */
  ghost function Depth(n: int, N: int, w: seq<int>, P: seq<int>, kids: seq<(int, int)>, k: int): (d: nat)
    requires Linked(n, N, w, P, kids) && 1 <= k <= N
    decreases N - k
  {
    if P[k] == -1 then 0 else 1 + Depth(n, N, w, P, kids, P[k])
  }

  /** In a tree with the single root N no node is deeper than the root is high. */
  lemma {:induction false} DepthHeight(n: int, N: int, w: seq<int>, P: seq<int>, kids: seq<(int, int)>, k: int)
    requires Linked(n, N, w, P, kids) && 1 <= k <= N && forall i :: 1 <= i < N ==> P[i] != -1
    ensures Depth(n, N, w, P, kids, k) + Height(w[k]) <= Height(w[N])
    decreases N - k
  {
    if P[k] != -1 { DepthHeight(n, N, w, P, kids, P[k]); }
  }

  /** The share of the code space below a node, in units of 2^-M; nodes below others on the frontier do not count. */
  ghost function Share(n: int, N: int, w: seq<int>, P: seq<int>, kids: seq<(int, int)>, M: nat, m: int, k: int): int
    requires Linked(n, N, w, P, kids) && 1 <= k <= N
  {
    if (P[k] == -1 || P[k] > m) && Depth(n, N, w, P, kids, k) <= M then Pow2(M - Depth(n, N, w, P, kids, k)) else 0
  }

  ghost function Shares(n: int, N: int, w: seq<int>, P: seq<int>, kids: seq<(int, int)>, M: nat, m: int, j: int): int
    requires Linked(n, N, w, P, kids) && 0 <= j <= N
  {
    if j == 0 then 0 else Shares(n, N, w, P, kids, M, m, j - 1) + Share(n, N, w, P, kids, M, m, j)
  }

  /** Uncovering inner node m replaces it by its two children. */
  lemma {:induction false} Uncover(n: int, N: int, w: seq<int>, P: seq<int>, kids: seq<(int, int)>, M: nat, m: int,
      j: int)
    requires Linked(n, N, w, P, kids) && n < m <= N && 0 <= j < m && Depth(n, N, w, P, kids, m) + 1 <= M
    ensures Shares(n, N, w, P, kids, M, m - 1, j) ==
            Shares(n, N, w, P, kids, M, m, j) + (if kids[m].0 <= j then Pow2(M - Depth(n, N, w, P, kids, m) - 1) else 0)
                                              + (if kids[m].1 <= j then Pow2(M - Depth(n, N, w, P, kids, m) - 1) else 0)
  {
    hide Pow2, Height;
    if j > 0 {
      Uncover(n, N, w, P, kids, M, m, j - 1);
      if P[j] == m {
        assert Depth(n, N, w, P, kids, j) == Depth(n, N, w, P, kids, m) + 1;
      }
    }
  }

  lemma UncoverStep(n: int, N: int, w: seq<int>, P: seq<int>, kids: seq<(int, int)>, M: nat, m: int)
    requires Linked(n, N, w, P, kids) && n < m <= N && Depth(n, N, w, P, kids, m) + 1 <= M && (P[m] == -1 || P[m] > m)
    ensures Shares(n, N, w, P, kids, M, m - 1, m - 1) == Shares(n, N, w, P, kids, M, m, m)
  {
    Uncover(n, N, w, P, kids, M, m, m - 1);
    var d := Depth(n, N, w, P, kids, m);
    assert Pow2(M - d) == 2 * Pow2(M - d - 1);
    assert kids[m].0 <= m - 1 && kids[m].1 <= m - 1;
    hide Linked, Height, Pow2, Depth;
    assert Shares(n, N, w, P, kids, M, m, m) == Shares(n, N, w, P, kids, M, m, m - 1)
           + Share(n, N, w, P, kids, M, m, m);
  }

  /** The frontier at m always fills the code space. */
  lemma {:induction false} FrontierFull(n: int, N: int, w: seq<int>, P: seq<int>, kids: seq<(int, int)>, M: nat, m: int)
    requires Linked(n, N, w, P, kids) && n <= m <= N && P[N] == -1 && (forall i :: 1 <= i < N ==> P[i] != -1)
    requires Height(w[N]) <= M
    ensures Shares(n, N, w, P, kids, M, m, m) == Pow2(M)
    decreases N - m
  {
    if m == N {
      RootOnly(n, N, w, P, kids, M, N - 1);
    } else {
      hide Height, Shares, Pow2, Depth;
      FrontierFull(n, N, w, P, kids, M, m + 1);
      DeepEnough(n, N, w, P, kids, M, m + 1);
      UncoverStep(n, N, w, P, kids, M, m + 1);
    }
  }

  lemma DeepEnough(n: int, N: int, w: seq<int>, P: seq<int>, kids: seq<(int, int)>, M: nat, m: int)
    requires Linked(n, N, w, P, kids) && n < m <= N && (forall i :: 1 <= i < N ==> P[i] != -1) && Height(w[N]) <= M
    ensures Depth(n, N, w, P, kids, m) + 1 <= M && (P[m] == -1 || P[m] > m)
  {
    var a := kids[m].0;
    assert P[a] == m;
    DepthHeight(n, N, w, P, kids, a);
  }

  lemma {:induction false} RootOnly(n: int, N: int, w: seq<int>, P: seq<int>, kids: seq<(int, int)>, M: nat, j: int)
    requires Linked(n, N, w, P, kids) && 0 <= j < N && forall i :: 1 <= i < N ==> P[i] != -1
    ensures Shares(n, N, w, P, kids, M, N, j) == 0
  {
    if j > 0 { RootOnly(n, N, w, P, kids, M, j - 1); }
  }

  /** Sum of 2^(M - len) over the code lengths. */
  ghost function KraftSum(lens: seq<int>, M: nat): (s: nat) {
    if lens == [] then 0
    else KraftSum(lens[..|lens| - 1], M) + (if 0 <= lens[|lens| - 1] <= M then Pow2(M - lens[|lens| - 1]) else 0)
  }

  /** Leaf depths as code lengths. */
  lemma {:induction false} LeavesShare(n: int, N: int, w: seq<int>, P: seq<int>, kids: seq<(int, int)>, M: nat,
      lens: seq<int>)
    requires Linked(n, N, w, P, kids) && |lens| <= n && n < N && (forall i :: 1 <= i < N ==> P[i] != -1)
    requires forall i :: 0 <= i < |lens| ==> lens[i] == Depth(n, N, w, P, kids, i + 1)
    ensures KraftSum(lens, M) == Shares(n, N, w, P, kids, M, n, |lens|)
  {
    hide Height;
    if lens != [] {
      var k := |lens| - 1;
      assert forall i :: 0 <= i < k ==> lens[..k][i] == lens[i];
      LeavesShare(n, N, w, P, kids, M, lens[..k]);
      assert P[k + 1] > n;
    }
  }

  lemma {:induction false} KraftScale(lens: seq<int>, M: nat, e: nat)
    requires forall i :: 0 <= i < |lens| ==> 0 <= lens[i] <= M
    ensures KraftSum(lens, M + e) == KraftSum(lens, M) * Pow2(e)
  {
    if lens != [] {
      var k := |lens| - 1;
      assert forall i :: 0 <= i < k ==> lens[..k][i] == lens[i];
      KraftScale(lens[..k], M, e);
      Pow2Add(M - lens[k], e);
      SumTimes(KraftSum(lens[..k], M), Pow2(M - lens[k]), Pow2(e));
    }
  }

  lemma Cancel(a: int, b: int, c: int)
    requires c > 0 && a * c == b * c
    ensures a == b
  {
  }

  /** The depths of a finished tree's leaves fill the code space exactly. */
  lemma TreeKraft(n: int, N: int, w: seq<int>, P: seq<int>, kids: seq<(int, int)>, lens: seq<int>, maxLen: nat)
    requires Linked(n, N, w, P, kids) && n < N && P[N] == -1 && (forall i :: 1 <= i < N ==> P[i] != -1)
    requires |lens| == n && forall i :: 0 <= i < n ==> lens[i] == Depth(n, N, w, P, kids, i + 1)
    requires forall i :: 0 <= i < n ==> lens[i] <= maxLen
    ensures KraftSum(lens, maxLen) == Pow2(maxLen) && forall i :: 0 <= i < n ==> 1 <= lens[i]
  {
    hide Height, Pow2, KraftSum, Shares;
    var M := maxLen + Height(w[N]);
    FrontierFull(n, N, w, P, kids, M, n);
    LeavesShare(n, N, w, P, kids, M, lens);
    KraftScale(lens, maxLen, Height(w[N]));
    Pow2Add(maxLen, Height(w[N]));
    Cancel(KraftSum(lens, maxLen), Pow2(maxLen), Pow2(Height(w[N])));
  }
}
