/** Why merging the two lightest nodes gives the cheapest code: lengths for the roots of a forest can be
    exchanged, without cost, until the two lightest have the same length, and then merged. */
module HuffmanOptimal {
  import opened Bits
  import opened HuffmanForest

  /** What it costs to send symbols this often with codes of these lengths. */
  ghost function Cost(weights: seq<int>, lens: seq<int>): int
    requires |weights| == |lens|
  {
    if lens == [] then 0
    else Cost(weights[..|lens| - 1], lens[..|lens| - 1]) + weights[|lens| - 1] * lens[|lens| - 1]
  }

  /** Lengths that some prefix code has: their Kraft sum is at most one. */
  ghost predicate Codable(lens: seq<int>, M: nat) {
    (forall i :: 0 <= i < |lens| ==> 0 <= lens[i] <= M) && KraftSum(lens, M) <= Pow2(M)
  }

  /** No prefix code is cheaper. */
  ghost predicate Optimal(weights: seq<int>, lens: seq<int>) {
    |weights| == |lens| && forall other: seq<int>, M: nat ::
      |other| == |lens| && Codable(other, M) ==> Cost(weights, lens) <= Cost(weights, other)
  }

  // ---- the forest, merge by merge ----

  /** Node k is a root while the nodes up to m are the ones there. */
  ghost predicate On(P: seq<int>, m: int, k: int)
    requires 0 <= k < |P|
  {
    P[k] == -1 || P[k] > m
  }

  /** Inner node m was made of the two lightest roots there were. */
  ghost predicate Lightest(w: seq<int>, P: seq<int>, kids: seq<(int, int)>, m: int) {
    && |w| == |P| == |kids| == ROOM && 1 <= m < ROOM
    && var (a, b) := kids[m];
       && 1 <= a < m && 1 <= b < m && a != b && Count(w[m]) == Count(w[a]) + Count(w[b]) && Count(w[a]) <= Count(w[b])
       && forall k :: 1 <= k < m && On(P, m - 1, k) && k != a ==> Count(w[b]) <= Count(w[k])
  }

  ghost predicate Greedy(n: int, N: int, w: seq<int>, P: seq<int>, kids: seq<(int, int)>) {
    forall m :: n < m <= N ==> Lightest(w, P, kids, m)
  }

  lemma MergeGreedy(n: int, N: int, w: seq<int>, P: seq<int>, kids: seq<(int, int)>, a: int, b: int, w': seq<int>,
      P': seq<int>, kids': seq<(int, int)>)
    requires Greedy(n, N, w, P, kids) && Merges(N, w, P, kids, a, b, w', P', kids')
    requires w[a] <= w[b] && forall k :: 1 <= k <= N && k != a && P[k] == -1 ==> w[b] <= w[k]
    requires forall k :: 1 <= k <= N ==> P[k] <= N
    ensures Greedy(n, N + 1, w', P', kids')
  {
    forall m | n < m <= N + 1 ensures Lightest(w', P', kids', m) {
      if m <= N {
        assert Lightest(w, P, kids, m);
        StillLightest(N, w, P, kids, a, b, w', P', kids', m);
      } else {
        NewLightest(N, w, P, kids, a, b, w', P', kids');
      }
    }
  }

  lemma StillLightest(N: int, w: seq<int>, P: seq<int>, kids: seq<(int, int)>, a: int, b: int, w': seq<int>,
      P': seq<int>, kids': seq<(int, int)>, m: int)
    requires Merges(N, w, P, kids, a, b, w', P', kids') && m <= N && Lightest(w, P, kids, m)
    ensures Lightest(w', P', kids', m)
  {
    hide Count, Height, Weight;
    var q := m - 1;
    forall k | 1 <= k < m && On(P', q, k) ensures On(P, q, k) {
    }
  }

  lemma NewLightest(N: int, w: seq<int>, P: seq<int>, kids: seq<(int, int)>, a: int, b: int, w': seq<int>,
      P': seq<int>, kids': seq<(int, int)>)
    requires Merges(N, w, P, kids, a, b, w', P', kids')
    requires w[a] <= w[b] && forall k :: 1 <= k <= N && k != a && P[k] == -1 ==> w[b] <= w[k]
    requires forall k :: 1 <= k <= N ==> P[k] <= N
    ensures Lightest(w', P', kids', N + 1)
  {
    MergedWeight(Count(w[a]) + Count(w[b]), 1 + if Height(w[a]) > Height(w[b]) then Height(w[a]) else Height(w[b]));
    CountMono(w[a], w[b]);
    forall k | 1 <= k < N + 1 && On(P', N, k) && k != a ensures Count(w'[b]) <= Count(w'[k]) {
      assert P[k] == -1;
      CountMono(w[b], w[k]);
    }
  }

  lemma CountMono(x: int, y: int)
    requires x <= y
    ensures Count(x) <= Count(y)
  {
  }

  // ---- sums over the roots ----

  /** A complete tree, built greedily. */
  ghost predicate Grown(n: int, N: int, w: seq<int>, P: seq<int>, kids: seq<(int, int)>) {
    && Linked(n, N, w, P, kids) && Greedy(n, N, w, P, kids) && P[N] == -1 && (forall i :: 1 <= i < N ==> P[i] != -1)
    && (forall k :: 1 <= k <= N ==> Count(w[k]) >= 0)
  }

  ghost function RootCost(w: seq<int>, P: seq<int>, L: seq<int>, m: int, j: int): int
    requires |w| == |P| == |L| == ROOM && 0 <= j < ROOM
  {
    if j == 0 then 0 else RootCost(w, P, L, m, j - 1) + if On(P, m, j) then Count(w[j]) * L[j] else 0
  }

  ghost function RootKraft(P: seq<int>, L: seq<int>, M: nat, m: int, j: int): int
    requires |P| == |L| == ROOM && 0 <= j < ROOM
  {
    if j == 0 then 0
    else RootKraft(P, L, M, m, j - 1) + if On(P, m, j) && 0 <= L[j] <= M then Pow2(M - L[j]) else 0
  }

  /** The weights of the inner nodes still to be made. */
  ghost function Inner(w: seq<int>, m: int, N: int): int
    requires 0 <= m <= N < |w|
    decreases N - m
  {
    if m == N then 0 else Count(w[m + 1]) + Inner(w, m + 1, N)
  }

  /** Lengths for the roots that some code has. */
  ghost predicate Fair(P: seq<int>, L: seq<int>, M: nat, m: int) {
    && |P| == |L| == ROOM && 0 <= m < ROOM
    && (forall k :: 1 <= k <= m && On(P, m, k) ==> 0 <= L[k] <= M) && RootKraft(P, L, M, m, m) <= Pow2(M)
  }

  lemma {:induction false} CostSet(w: seq<int>, P: seq<int>, L: seq<int>, m: int, j: int, k: int, x: int)
    requires |w| == |P| == |L| == ROOM && 0 <= j < ROOM && 1 <= k < ROOM && On(P, m, k)
    ensures RootCost(w, P, L[k := x], m, j) == RootCost(w, P, L, m, j)
                                               + if k <= j then Count(w[k]) * x - Count(w[k]) * L[k] else 0
  {
    hide Count;
    if j > 0 { CostSet(w, P, L, m, j - 1, k, x); }
  }

  lemma {:induction false} KraftSet(P: seq<int>, L: seq<int>, M: nat, m: int, j: int, k: int, x: int)
    requires |P| == |L| == ROOM && 0 <= j < ROOM && 1 <= k < ROOM && On(P, m, k) && 0 <= x <= M && 0 <= L[k] <= M
    ensures RootKraft(P, L[k := x], M, m, j) == RootKraft(P, L, M, m, j)
                                                + if k <= j then Pow2(M - x) - Pow2(M - L[k]) else 0
  {
    hide Pow2;
    if j > 0 { KraftSet(P, L, M, m, j - 1, k, x); }
  }

  /** Where no length exceeds T the sum is a multiple of 2^(M - T). */
  lemma {:induction false} KraftMultiple(P: seq<int>, L: seq<int>, M: nat, m: int, j: int, T: nat) returns (q: nat)
    requires |P| == |L| == ROOM && 0 <= j < ROOM && T <= M
    requires forall k :: 1 <= k <= j && On(P, m, k) ==> 0 <= L[k] <= T
    ensures RootKraft(P, L, M, m, j) == q * Pow2(M - T)
  {
    hide Pow2;
    if j == 0 {
      q := 0;
    } else {
      q := KraftMultiple(P, L, M, m, j - 1, T);
      if On(P, m, j) {
        Pow2Add(T - L[j], M - T);
        SumTimes(q, Pow2(T - L[j]), Pow2(M - T));
        q := q + Pow2(T - L[j]);
      }
    }
  }

  lemma {:induction false} KraftAtLeast(P: seq<int>, L: seq<int>, M: nat, m: int, j: int, a: int, b: int)
    requires |P| == |L| == ROOM && 0 <= j < ROOM && 1 <= a < ROOM && 1 <= b < ROOM && a != b && On(P, m, a)
             && On(P, m, b)
    requires 0 <= L[a] <= M && 0 <= L[b] <= M
    ensures RootKraft(P, L, M, m, j) >= (if a <= j then Pow2(M - L[a]) else 0) + (if b <= j then Pow2(M - L[b]) else 0)
  {
    if j > 0 { KraftAtLeast(P, L, M, m, j - 1, a, b); }
  }

  // ---- exchanging lengths ----

  lemma Exchange(c: int, d: int, x: int, y: int)
    requires c <= d && x <= y
    ensures c * y + d * x <= c * x + d * y
  {
    MulMono(c, d, y - x);
    assert c * (y - x) == c * y - c * x && d * (y - x) == d * y - d * x;
  }

  /** A lighter root takes over the greater length. */
  lemma Swapped(w: seq<int>, P: seq<int>, L: seq<int>, M: nat, m: int, a: int, k: int) returns (L': seq<int>)
    requires |w| == ROOM && Fair(P, L, M, m) && 1 <= a <= m && 1 <= k <= m && On(P, m, a) && On(P, m, k)
    requires Count(w[a]) <= Count(w[k]) && L[a] <= L[k]
    ensures L' == L[a := L[k]][k := L[a]]
    ensures Fair(P, L', M, m) && RootCost(w, P, L', m, m) <= RootCost(w, P, L, m, m)
  {
    hide Pow2, Count;
    L' := L[a := L[k]][k := L[a]];
    if a != k {
      CostSet(w, P, L, m, m, a, L[k]);
      CostSet(w, P, L[a := L[k]], m, m, k, L[a]);
      KraftSet(P, L, M, m, m, a, L[k]);
      KraftSet(P, L[a := L[k]], M, m, m, k, L[a]);
      Exchange(Count(w[a]), Count(w[k]), L[a], L[k]);
    } else {
      assert L' == L;
    }
  }

  /** The longest of the roots other than x. */
  lemma Longest(P: seq<int>, L: seq<int>, m: int, x: int, y: int) returns (k: int)
    requires |P| == |L| == ROOM && 0 <= m < ROOM && 1 <= y <= m && y != x && On(P, m, y)
    ensures 1 <= k <= m && k != x && On(P, m, k)
    ensures forall i :: 1 <= i <= m && i != x && On(P, m, i) ==> L[i] <= L[k]
  {
    k := y;
    var j := 0;
    while j < m
      invariant 0 <= j <= m && 1 <= k <= m && k != x && On(P, m, k) && L[y] <= L[k]
      invariant forall i :: 1 <= i <= j && i != x && On(P, m, i) ==> L[i] <= L[k]
    {
      j := j + 1;
      if j != x && On(P, m, j) && L[j] > L[k] { k := j; }
    }
  }

  /** The one longest length can come down to the next: what is left over is a multiple of its share. */
  lemma Lowered(w: seq<int>, P: seq<int>, L: seq<int>, M: nat, m: int, a: int, b: int) returns (L': seq<int>)
    requires |w| == ROOM && Fair(P, L, M, m) && 1 <= a <= m && 1 <= b <= m && a != b && On(P, m, a) && On(P, m, b)
             && Count(w[a]) >= 0
    requires L[b] <= L[a] && forall i :: 1 <= i <= m && i != a && On(P, m, i) ==> L[i] <= L[b]
    ensures L' == L[a := L[b]] && Fair(P, L', M, m) && RootCost(w, P, L', m, m) <= RootCost(w, P, L, m, m)
  {
    hide Pow2, Count;
    var T := L[b];
    L' := L[a := T];
    CostSet(w, P, L, m, m, a, T);
    MulMono(T, L[a], Count(w[a]));
    KraftSet(P, L, M, m, m, a, T);
    var q := KraftMultiple(P, L', M, m, m, T);
    Pow2Add(T, M - T);
    SumTimes(Pow2(T), 1, Pow2(M - T));
    if q > Pow2(T) { MulMono(Pow2(T) + 1, q, Pow2(M - T)); }
    MulMono(q, Pow2(T), Pow2(M - T));
  }

  /** The two lightest roots can be given one and the same length, greater than zero. */
  lemma Paired(w: seq<int>, P: seq<int>, L: seq<int>, M: nat, m: int, a: int, b: int) returns (L': seq<int>)
    requires |w| == ROOM && Fair(P, L, M, m) && 1 <= a <= m && 1 <= b <= m && a != b && On(P, m, a) && On(P, m, b)
    requires 0 <= Count(w[a]) <= Count(w[b])
             && forall k :: 1 <= k <= m && On(P, m, k) && k != a ==> Count(w[b]) <= Count(w[k])
    ensures Fair(P, L', M, m) && RootCost(w, P, L', m, m) <= RootCost(w, P, L, m, m) && 1 <= L'[a] == L'[b]
  {
    hide Pow2, Count, RootCost, RootKraft;
    var k := Longest(P, L, m, 0, a);
    var L1 := Swapped(w, P, L, M, m, a, k);
    var k1 := Longest(P, L1, m, a, b);
    var L2 := Swapped(w, P, L1, M, m, b, k1);
    assert forall i :: 1 <= i <= m && i != a && On(P, m, i) ==> L2[i] <= L2[b];
    L' := Lowered(w, P, L2, M, m, a, b);
    KraftAtLeast(P, L', M, m, m, a, b);
    Pow2Positive(M);
  }

  lemma Pow2Positive(n: nat)
    ensures Pow2(n) > 0
  {
  }

  // ---- merging ----

  /** Covering the children of node m + 1. */
  lemma {:induction false} CostCover(n: int, N: int, w: seq<int>, P: seq<int>, kids: seq<(int, int)>, L: seq<int>,
      m: int, j: int)
    requires Linked(n, N, w, P, kids) && n <= m < N && 0 <= j <= m && |L| == ROOM
    ensures var (a, b) := kids[m + 1];
            RootCost(w, P, L, m, j) == RootCost(w, P, L, m + 1, j) + (if a <= j then Count(w[a]) * L[a] else 0)
                                       + (if b <= j then Count(w[b]) * L[b] else 0)
  {
    hide Count, Height;
    if j > 0 { CostCover(n, N, w, P, kids, L, m, j - 1); }
  }

  lemma {:induction false} KraftCover(n: int, N: int, w: seq<int>, P: seq<int>, kids: seq<(int, int)>, L: seq<int>,
      M: nat, m: int, j: int)
    requires Linked(n, N, w, P, kids) && n <= m < N && 0 <= j <= m && |L| == ROOM
    requires var (a, b) := kids[m + 1]; 0 <= L[a] <= M && 0 <= L[b] <= M
    ensures var (a, b) := kids[m + 1];
            RootKraft(P, L, M, m, j) == RootKraft(P, L, M, m + 1, j) + (if a <= j then Pow2(M - L[a]) else 0)
                                        + (if b <= j then Pow2(M - L[b]) else 0)
  {
    hide Pow2, Height;
    if j > 0 { KraftCover(n, N, w, P, kids, L, M, m, j - 1); }
  }

  lemma {:induction false} SumsSame(w: seq<int>, P: seq<int>, L: seq<int>, L': seq<int>, M: nat, m: int, j: int)
    requires |w| == |P| == |L| == |L'| == ROOM && 0 <= j < ROOM && forall k :: 1 <= k <= j ==> L[k] == L'[k]
    ensures RootCost(w, P, L, m, j) == RootCost(w, P, L', m, j)
            && RootKraft(P, L, M, m, j) == RootKraft(P, L', M, m, j)
  {
    hide Pow2, Count;
    if j > 0 { SumsSame(w, P, L, L', M, m, j - 1); }
  }

  /** The children of the next node are roots now, the lightest of all. */
  lemma NextKids(n: int, N: int, w: seq<int>, P: seq<int>, kids: seq<(int, int)>, m: int)
    requires Grown(n, N, w, P, kids) && n <= m < N
    ensures var (a, b) := kids[m + 1];
            && 1 <= a <= m && 1 <= b <= m && a != b && On(P, m, a) && On(P, m, b) && On(P, m + 1, m + 1)
            && Count(w[m + 1]) == Count(w[a]) + Count(w[b]) && 0 <= Count(w[a]) <= Count(w[b])
            && (forall k :: 1 <= k <= m && On(P, m, k) && k != a ==> Count(w[b]) <= Count(w[k]))
  {
    assert Lightest(w, P, kids, m + 1);
    hide Count, Height;
  }

  /** Merging two roots of one length saves their weight and keeps the Kraft sum. */
  lemma Merged(n: int, N: int, w: seq<int>, P: seq<int>, kids: seq<(int, int)>, L: seq<int>, M: nat, m: int)
    returns (L': seq<int>)
    requires Grown(n, N, w, P, kids) && n <= m < N && Fair(P, L, M, m)
    requires 1 <= kids[m + 1].0 <= m && 1 <= kids[m + 1].1 <= m && 1 <= L[kids[m + 1].0] == L[kids[m + 1].1]
    ensures Fair(P, L', M, m + 1)
    ensures RootCost(w, P, L, m, m) == Count(w[m + 1]) + RootCost(w, P, L', m + 1, m + 1)
  {
    NextKids(n, N, w, P, kids, m);
    hide Count, Height, Pow2, Greedy, Linked, RootCost, RootKraft, Grown;
    GrownSizes(n, N, w, P, kids);
    var (a, b) := kids[m + 1];
    var T := L[a];
    L' := L[m + 1 := T - 1];
    CostCover(n, N, w, P, kids, L, m, m);
    KraftCover(n, N, w, P, kids, L, M, m, m);
    SumsSame(w, P, L, L', M, m + 1, m);
    Pow2Next(M - T);
    LastRoot(w, P, L', M, m + 1);
    OneLess(Count(w[a]), Count(w[b]), T);
  }

  lemma OneLess(c: int, d: int, t: int)
    ensures (c + d) * (t - 1) == c * t + d * t - c - d
  {
  }

  lemma GrownSizes(n: int, N: int, w: seq<int>, P: seq<int>, kids: seq<(int, int)>)
    requires Grown(n, N, w, P, kids)
    ensures 1 <= n <= N < ROOM && |w| == |P| == |kids| == ROOM && forall k :: 1 <= k <= N ==> Count(w[k]) >= 0
  {
    hide Greedy;
  }

  lemma LastRoot(w: seq<int>, P: seq<int>, L: seq<int>, M: nat, m: int)
    requires |w| == |P| == |L| == ROOM && 1 <= m < ROOM && On(P, m, m) && 0 <= L[m] <= M
    ensures RootCost(w, P, L, m, m) == RootCost(w, P, L, m, m - 1) + Count(w[m]) * L[m]
    ensures RootKraft(P, L, M, m, m) == RootKraft(P, L, M, m, m - 1) + Pow2(M - L[m])
  {
    hide Count, Pow2;
  }

  lemma {:induction false} CostNat(w: seq<int>, P: seq<int>, L: seq<int>, m: int, j: int)
    requires |w| == |P| == |L| == ROOM && 0 <= j < ROOM
    requires forall k :: 1 <= k <= j ==> Count(w[k]) >= 0 && (On(P, m, k) ==> L[k] >= 0)
    ensures RootCost(w, P, L, m, j) >= 0
  {
    hide Count;
    if j > 0 {
      CostNat(w, P, L, m, j - 1);
      if On(P, m, j) { MulMono(0, Count(w[j]), L[j]); }
    }
  }

  /** Whatever lengths the roots are given, the merges still to come cost no more. */
  lemma {:induction false} CostsAtLeast(n: int, N: int, w: seq<int>, P: seq<int>, kids: seq<(int, int)>, L: seq<int>,
      M: nat, m: int)
    requires Grown(n, N, w, P, kids) && n <= m <= N && Fair(P, L, M, m)
    ensures Inner(w, m, N) <= RootCost(w, P, L, m, m)
    decreases N - m
  {
    hide Count, Height, Pow2, Greedy, RootCost, RootKraft, On, Linked, Grown;
    GrownSizes(n, N, w, P, kids);
    if m == N {
      CostNat(w, P, L, m, m);
    } else {
      NextKids(n, N, w, P, kids, m);
      var (a, b) := kids[m + 1];
      var L1 := Paired(w, P, L, M, m, a, b);
      var L2 := Merged(n, N, w, P, kids, L1, M, m);
      CostsAtLeast(n, N, w, P, kids, L2, M, m + 1);
    }
  }

  /** With depths for lengths, the roots cost exactly that. */
  lemma {:induction false} DepthsCost(n: int, N: int, w: seq<int>, P: seq<int>, kids: seq<(int, int)>, D: seq<int>,
      m: int)
    requires Grown(n, N, w, P, kids) && n <= m <= N && |D| == ROOM
    requires forall k :: 1 <= k <= N ==> D[k] == Depth(n, N, w, P, kids, k)
    ensures RootCost(w, P, D, m, m) == Inner(w, m, N)
    decreases N - m
  {
    hide Count, Height, Greedy, Linked, RootCost, Depth, Inner;
    GrownSizes(n, N, w, P, kids);
    if m == N {
      OnlyRoot(n, N, w, P, kids, D, N - 1);
      RootDepth(n, N, w, P, kids, D);
    } else {
      DepthsCost(n, N, w, P, kids, D, m + 1);
      NextKids(n, N, w, P, kids, m);
      var (a, b) := kids[m + 1];
      KidDepths(n, N, w, P, kids, m + 1);
      CostCover(n, N, w, P, kids, D, m, m);
      LastRoot(w, P, D, D[m + 1], m + 1);
      OneLess(Count(w[a]), Count(w[b]), D[m + 1] + 1);
      InnerNext(w, m, N);
    }
  }

  lemma InnerNext(w: seq<int>, m: int, N: int)
    requires 0 <= m < N < |w|
    ensures Inner(w, m, N) == Count(w[m + 1]) + Inner(w, m + 1, N)
  {
    hide Count;
  }

  lemma RootDepth(n: int, N: int, w: seq<int>, P: seq<int>, kids: seq<(int, int)>, D: seq<int>)
    requires Grown(n, N, w, P, kids) && |D| == ROOM && D[N] == Depth(n, N, w, P, kids, N)
    requires |w| == |P| == ROOM && RootCost(w, P, D, N, N - 1) == 0
    ensures RootCost(w, P, D, N, N) == 0 == Inner(w, N, N)
  {
    hide Count, Greedy;
  }

  lemma KidDepths(n: int, N: int, w: seq<int>, P: seq<int>, kids: seq<(int, int)>, m: int)
    requires Linked(n, N, w, P, kids) && n < m <= N
    ensures Depth(n, N, w, P, kids, kids[m].0) == Depth(n, N, w, P, kids, m) + 1
    ensures Depth(n, N, w, P, kids, kids[m].1) == Depth(n, N, w, P, kids, m) + 1
  {
    hide Height;
  }

  lemma {:induction false} OnlyRoot(n: int, N: int, w: seq<int>, P: seq<int>, kids: seq<(int, int)>, D: seq<int>,
      j: int)
    requires Grown(n, N, w, P, kids) && 0 <= j < N && |D| == ROOM
    ensures RootCost(w, P, D, N, j) == 0
  {
    hide Count, Greedy;
    if j > 0 { OnlyRoot(n, N, w, P, kids, D, j - 1); }
  }

  // ---- the leaves ----

  /** The leaves' counts. */
  ghost function Counts(w: seq<int>, n: nat): (c: seq<int>)
    requires n < |w|
    ensures |c| == n && forall i :: 0 <= i < n ==> c[i] == Count(w[i + 1])
  {
    seq(n, i requires 0 <= i < n => Count(w[i + 1]))
  }

  lemma {:induction false} LeafCost(w: seq<int>, P: seq<int>, L: seq<int>, m: nat, weights: seq<int>, lens: seq<int>)
    requires |w| == |P| == |L| == ROOM && |weights| == |lens| < ROOM
    requires forall i :: 0 <= i < |lens| ==> On(P, m, i + 1) && weights[i] == Count(w[i + 1]) && lens[i] == L[i + 1]
    ensures Cost(weights, lens) == RootCost(w, P, L, m, |lens|)
  {
    hide Count, On;
    if lens != [] {
      var k := |lens| - 1;
      LeafCost(w, P, L, m, weights[..k], lens[..k]);
    }
  }

  lemma {:induction false} LeafKraft(P: seq<int>, L: seq<int>, M: nat, m: nat, lens: seq<int>)
    requires |P| == |L| == ROOM && |lens| < ROOM
    requires forall i :: 0 <= i < |lens| ==> On(P, m, i + 1) && lens[i] == L[i + 1]
    ensures KraftSum(lens, M) == RootKraft(P, L, M, m, |lens|)
  {
    hide Pow2, On;
    if lens != [] {
      var k := |lens| - 1;
      LeafKraft(P, L, M, m, lens[..k]);
    }
  }

  /** The depths of the leaves of a greedily built tree cost the least. */
  lemma TreeOptimal(n: int, N: int, w: seq<int>, P: seq<int>, kids: seq<(int, int)>, lens: seq<int>)
    requires Grown(n, N, w, P, kids) && n < N && |lens| == n
    requires forall i :: 0 <= i < n ==> lens[i] == Depth(n, N, w, P, kids, i + 1)
    ensures Optimal(Counts(w, n), lens)
  {
    var D := seq(ROOM, k => if 1 <= k <= N then Depth(n, N, w, P, kids, k) else 0);
    DepthsCost(n, N, w, P, kids, D, n);
    LeavesOn(n, N, w, P, kids);
    hide Count, Greedy, Depth, RootCost, Cost, Linked, On, KraftSum, Codable;
    LeafCost(w, P, D, n, Counts(w, n), lens);
    forall other: seq<int>, M: nat | |other| == n && Codable(other, M)
      ensures Cost(Counts(w, n), lens) <= Cost(Counts(w, n), other)
    {
      OtherCosts(n, N, w, P, kids, other, M);
    }
  }

  lemma LeavesOn(n: int, N: int, w: seq<int>, P: seq<int>, kids: seq<(int, int)>)
    requires Linked(n, N, w, P, kids) && n < N && (forall i :: 1 <= i < N ==> P[i] != -1)
    ensures |w| == |P| == |kids| == ROOM && forall k :: 1 <= k <= n ==> On(P, n, k)
  {
    hide Height;
  }

  lemma OtherCosts(n: int, N: int, w: seq<int>, P: seq<int>, kids: seq<(int, int)>, other: seq<int>, M: nat)
    requires Grown(n, N, w, P, kids) && n < N && |other| == n && Codable(other, M)
    ensures Inner(w, n, N) <= Cost(Counts(w, n), other)
  {
    LeavesOn(n, N, w, P, kids);
    hide Count, Greedy, RootCost, RootKraft, Cost, Linked, On, KraftSum, Pow2;
    var L := seq(ROOM, k => if 1 <= k <= n then other[k - 1] else 0);
    LeafCost(w, P, L, n, Counts(w, n), other);
    LeafKraft(P, L, M, n, other);
    CostsAtLeast(n, N, w, P, kids, L, M, n);
  }

  // ---- what optimal lengths are like ----

  lemma {:induction false} CostUpdate(weights: seq<int>, lens: seq<int>, i: int, x: int)
    requires |weights| == |lens| && 0 <= i < |lens|
    ensures Cost(weights, lens[i := x]) == Cost(weights, lens) + weights[i] * x - weights[i] * lens[i]
  {
    var k := |lens| - 1;
    if i == k {
      assert lens[i := x][..k] == lens[..k];
    } else {
      CostUpdate(weights[..k], lens[..k], i, x);
      assert lens[i := x][..k] == lens[..k][i := x];
    }
  }

  lemma {:induction false} KraftUpdate(lens: seq<int>, M: nat, i: int, x: int)
    requires 0 <= i < |lens| && 0 <= lens[i] <= M && 0 <= x <= M
    ensures KraftSum(lens[i := x], M) == KraftSum(lens, M) + Pow2(M - x) - Pow2(M - lens[i])
  {
    hide Pow2;
    var k := |lens| - 1;
    if i == k {
      assert lens[i := x][..k] == lens[..k];
    } else {
      KraftUpdate(lens[..k], M, i, x);
      assert lens[i := x][..k] == lens[..k][i := x];
    }
  }

  /** A symbol that is more frequent has no longer code. */
  lemma FrequentShort(weights: seq<int>, lens: seq<int>, M: nat, i: int, j: int)
    requires Optimal(weights, lens) && Codable(lens, M) && 0 <= i < |lens| && 0 <= j < |lens|
             && weights[i] > weights[j]
    ensures lens[i] <= lens[j]
  {
    hide Pow2, KraftSum, Cost;
    if lens[i] > lens[j] {
      var one := lens[i := lens[j]];
      var other := one[j := lens[i]];
      CostUpdate(weights, lens, i, lens[j]);
      CostUpdate(weights, one, j, lens[i]);
      KraftUpdate(lens, M, i, lens[j]);
      KraftUpdate(one, M, j, lens[i]);
      assert Codable(other, M);
      Exchanged(weights[i], weights[j], lens[i], lens[j]);
      assert false;
    }
  }

  lemma Exchanged(c: int, d: int, x: int, y: int)
    requires c > d && x > y
    ensures c * y + d * x < c * x + d * y
  {
    MulMono(d + 1, c, x - y);
    assert c * (x - y) == c * x - c * y && (d + 1) * (x - y) == d * x - d * y + (x - y);
  }
}
