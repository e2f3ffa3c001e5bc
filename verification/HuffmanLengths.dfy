/** Huffman code lengths: merge the two lightest nodes until one tree is left; if it
    is too deep, flatten the weights and start again. */
module HuffmanLengths {
  import opened Bits
  import opened Rotations
  import opened Segments
  import opened HuffmanHeap
  import opened HuffmanForest
  import opened HuffmanOptimal

  const MAX_TOTAL := 0x80_0000  // counts must leave room for eight bits of height

  /** ADDWEIGHTS: counts add up, the height is one more than the greater. */
  function AddWeights(a: nat, b: nat): nat {
    BitOr(a / 256 * 256 + b / 256 * 256, 1 + if a % 256 > b % 256 then a % 256 else b % 256)
  }

  lemma AddWeightsFacts(a: nat, b: nat)
    requires Height(a) < 255 && Height(b) < 255
    ensures AddWeights(a, b) == Weight(Count(a) + Count(b), 1 + if Height(a) > Height(b) then Height(a) else Height(b))
    ensures AddWeights(a, b) > 0
  {
    var h := 1 + if a % 256 > b % 256 then a % 256 else b % 256;
    assert Pow2(8) == 256;
    hide BitOr;
    BitOrDisjoint(a / 256 + b / 256, h, 8);
  }

  /** The frequencies, no count below one. */
  function AtLeastOne(f: int): int { if f == 0 then 1 else f }

  ghost function Total(freq: seq<int>): int {
    if freq == [] then 0 else Total(freq[..|freq| - 1]) + AtLeastOne(freq[|freq| - 1])
  }

  /** Leaf weights: counts of at least one, heights zero. */
  ghost predicate Leaves(w: seq<int>, n: int) {
    && 2 <= n <= MAX_ALPHA && |w| == ROOM
    && (forall k :: 1 <= k <= n ==> w[k] == Weight(Count(w[k]), 0) && Count(w[k]) >= 1)
  }

  ghost function LeafSum(w: seq<int>, n: int): int
    requires 0 <= n < |w|
  {
    if n == 0 then 0 else LeafSum(w, n - 1) + Count(w[n])
  }

  lemma {:induction false} LeafSumFresh(w: seq<int>, P: seq<int>, n: int)
    requires 0 <= n < |w| && n < |P| && forall k :: 1 <= k <= n ==> P[k] == -1
    ensures RootSum(w, P, n) == LeafSum(w, n)
  {
    if n > 0 { LeafSumFresh(w, P, n - 1); }
  }

  lemma {:induction false} LeafSumSame(w: seq<int>, v: seq<int>, n: int)
    requires 0 <= n < |w| && n < |v| && forall k :: 1 <= k <= n ==> w[k] == v[k]
    ensures LeafSum(w, n) == LeafSum(v, n)
  {
    if n > 0 { LeafSumSame(w, v, n - 1); }
  }

  /** Everything the merging loop keeps. */
  ghost predicate Growing(n: int, N: int, w: seq<int>, P: seq<int>, kids: seq<(int, int)>, mx: int, total: int,
      r: set<int>)
  {
    && 2 <= n <= MAX_ALPHA && Linked(n, N, w, P, kids) && Heavy(N, w) && Settled(N, w, P, mx)
    && RootSum(w, P, N) == total < MAX_TOTAL && Roots(N, P, r) && P[N] == -1
    && N + |r| == 2 * n
  }

  /** The leaves never change while the tree grows. */
  ghost predicate KeepsLeaves(w: seq<int>, w0: seq<int>, n: int) {
    |w| == |w0| == ROOM && 0 <= n < ROOM && forall k :: 0 <= k <= n ==> w[k] == w0[k]
  }

  lemma GrowingStart(n: int, w: seq<int>, P: seq<int>, kids: seq<(int, int)>, r: set<int>)
    requires Leaves(w, n) && |P| == |kids| == ROOM && LeafSum(w, n) < MAX_TOTAL
    requires (forall k :: 1 <= k <= n ==> P[k] == -1) && (forall k :: k in r <==> 1 <= k <= n) && |r| == n
    ensures Growing(n, n, w, P, kids, 1, LeafSum(w, n), r)
  {
    LeafSumFresh(w, P, n);
    forall k | 1 <= k <= n ensures Height(w[k]) == 0 && Count(w[k]) >= 1 { MergedWeight(Count(w[k]), 0); }
  }

  /** Roots stay low: eight bits are enough for heights. */
  lemma RootsLow(n: int, N: int, w: seq<int>, P: seq<int>, kids: seq<(int, int)>, mx: int, total: int, r: set<int>,
      k: int)
    requires Growing(n, N, w, P, kids, mx, total, r) && k in r
    ensures 1 <= k <= N && P[k] == -1 && w[k] > 0 && Height(w[k]) < 34 && Least(Height(w[k])) <= total
  {
    hide Linked, Settled, Count, Height;
    RootInSum(w, P, N, k);
    LeastValues();
    LowEnough(Count(w[k]), Height(w[k]), 34);
    CountPositive(w[k]);
  }

  lemma CountPositive(x: int)
    requires Count(x) >= 1
    ensures x > 0
  {
  }

  lemma GrowingStep(n: int, N: int, w: seq<int>, P: seq<int>, kids: seq<(int, int)>, mx: int, total: int, r: set<int>,
      a: int, b: int, w': seq<int>, P': seq<int>, kids': seq<(int, int)>)
    requires Growing(n, N, w, P, kids, mx, total, r) && a in r && b in r && a != b
    requires w[a] <= w[b] && forall k :: k in r && k != a ==> w[b] <= w[k]
    requires Merges(N, w, P, kids, a, b, w', P', kids')
    ensures N + 1 !in r && Growing(n, N + 1, w', P', kids', Count(w[b]), total, r - {a} - {b} + {N + 1})
  {
    hide Linked, Heavy, Settled;
    MergeLinked(n, N, w, P, kids, a, b, w', P', kids');
    MergeSum(N, w, P, kids, a, b, w', P', kids');
    MergeRoots(N, w, P, kids, a, b, w', P', kids', r);
    MergeHeavy(N, w, P, kids, a, b, w', P', kids', mx);
    assert |r - {a} - {b} + {N + 1}| == |r| - 1;
  }

  lemma GreedyStep(n: int, N: int, w: seq<int>, P: seq<int>, kids: seq<(int, int)>, mx: int, total: int, r: set<int>,
      a: int, b: int, w': seq<int>, P': seq<int>, kids': seq<(int, int)>)
    requires Growing(n, N, w, P, kids, mx, total, r) && Greedy(n, N, w, P, kids)
    requires a in r && b in r && w[a] <= w[b] && forall k :: k in r && k != a ==> w[b] <= w[k]
    requires Merges(N, w, P, kids, a, b, w', P', kids')
    ensures Greedy(n, N + 1, w', P', kids')
  {
    hide Heavy, Settled, Merges, Greedy, Count, Height, Weight;
    MergeGreedy(n, N, w, P, kids, a, b, w', P', kids');
  }

  lemma GrowingFacts(n: int, N: int, w: seq<int>, P: seq<int>, kids: seq<(int, int)>, mx: int, total: int, r: set<int>)
    requires Growing(n, N, w, P, kids, mx, total, r)
    ensures 2 <= n <= MAX_ALPHA && n <= N < ROOM && |w| == |P| == |kids| == ROOM && N + |r| == 2 * n && N in r
    ensures forall k :: k in r ==> 1 <= k <= N && P[k] == -1
  {
    hide Heavy, Settled;
  }

  /** One root left: it is the last node made. */
  lemma OneRoot(n: int, N: int, w: seq<int>, P: seq<int>, kids: seq<(int, int)>, mx: int, total: int, r: set<int>)
    requires Growing(n, N, w, P, kids, mx, total, r) && |r| == 1
    ensures Linked(n, N, w, P, kids) && N == 2 * n - 1 && P[N] == -1 && forall i :: 1 <= i < N ==> P[i] != -1
    ensures Least(Height(w[N])) <= total
  {
    RootsLow(n, N, w, P, kids, mx, total, r, N);
    hide Heavy, Settled, Linked;
    forall i | 1 <= i < N ensures P[i] != -1 {
      if P[i] == -1 {
        PairInside(r, i, N);
      }
    }
  }

  lemma PairInside(r: set<int>, i: int, k: int)
    requires i in r && k in r && i != k
    ensures |r| >= 2
  {
    assert |r - {i} - {k}| == |r| - 2;
  }

  /** Sets up one root per symbol and heaps them. */
  method Plant(heap: array<int>, weight: array<int>, parent: array<int>, n: int) returns (ghost r: set<int>)
    requires heap != weight && heap != parent && weight != parent
    requires heap.Length == MAX_ALPHA + 2 && weight.Length == parent.Length == ROOM && Leaves(weight[..], n)
    modifies heap, weight, parent
    ensures weight[..] == old(weight[..])[0 := 0]
    ensures Ordered(heap[..], weight[..], n) && Lists(heap[..], n, r)
    ensures (forall k :: 1 <= k <= n ==> parent[k] == -1) && (forall k :: k in r <==> 1 <= k <= n) && |r| == n
  {
    hide Ordered, Lists, Weight, Count;
    ghost var w0 := weight[..];
    heap[0] := 0;
    weight[0] := 0;
    parent[0] := -2;
    ghost var w := weight[..];
    assert w == w0[0 := 0];
    r := {};
    EmptyHeap(heap[..], w);
    var i := 1;
    while i <= n
      invariant 1 <= i <= n + 1 && weight[..] == w
      invariant Ordered(heap[..], w, i - 1) && Lists(heap[..], i - 1, r)
      invariant (forall k :: 1 <= k < i ==> parent[k] == -1) && (forall k :: k in r <==> 1 <= k < i) && |r| == i - 1
    {
      parent[i] := -1;
      LeafPositive(w0, n, i);
      Push(heap, weight, i - 1, i, r);
      r := r + {i};
      i := i + 1;
    }
  }

  lemma LeafPositive(w: seq<int>, n: int, i: int)
    requires Leaves(w, n) && 1 <= i <= n
    ensures w[i] > 0
  {
  }

  lemma EmptyHeap(heap: seq<int>, w: seq<int>)
    requires |heap| > 0 && |w| > 0 && heap[0] == 0 && w[0] == 0
    ensures Ordered(heap, w, 0) && Lists(heap, 0, {})
  {
    assert heap[1..1] == [];
  }

  lemma StillOrdered(heap: seq<int>, w: seq<int>, w': seq<int>, n: int, r: set<int>, N: int)
    requires Ordered(heap, w, n) && Lists(heap, n, r) && |w'| == |w| && (forall k :: k in r ==> 1 <= k <= N)
    requires forall k :: 0 <= k <= N && k < |w| ==> w'[k] == w[k]
    requires N >= 0
    ensures Ordered(heap, w', n)
  {
    hide Lists;
    forall z | 1 <= z <= n ensures 1 <= heap[z] <= N { ListsMember(heap, n, r, z); }
  }

  /** A new node over the two lightest roots. */
  method Join(weight: array<int>, parent: array<int>, n: int, N: int, n1: int, n2: int, ghost kids0: seq<(int, int)>,
      ghost mx0: int, ghost r0: set<int>, ghost total: int)
    returns (ghost kids: seq<(int, int)>)
    requires weight != parent && weight.Length == parent.Length == ROOM
    requires Growing(n, N, weight[..], parent[..], kids0, mx0, total, r0)
    requires Greedy(n, N, weight[..], parent[..], kids0)
    requires n1 in r0 && n2 in r0 && n1 != n2 && 0 <= n1 < ROOM && 0 <= n2 < ROOM && weight[n1] <= weight[n2]
    requires forall k :: k in r0 && k != n1 ==> 0 <= k < ROOM && weight[n2] <= weight[k]
    modifies weight, parent
    ensures N + 1 < ROOM && N + 1 !in r0 && weight[N + 1] > 0
            && forall k :: 0 <= k <= N ==> weight[k] == old(weight[k])
    ensures Growing(n, N + 1, weight[..], parent[..], kids, Count(old(weight[n2])), total,
                    r0 - {n1} - {n2} + {N + 1})
    ensures Greedy(n, N + 1, weight[..], parent[..], kids)
  {
    hide Growing, Merges, AddWeights, Count, Height, Weight, Greedy;
    ghost var w, P := weight[..], parent[..];
    GrowingFacts(n, N, w, P, kids0, mx0, total, r0);
    RootsLow(n, N, w, P, kids0, mx0, total, r0, n1);
    RootsLow(n, N, w, P, kids0, mx0, total, r0, n2);
    AddWeightsFacts(weight[n1], weight[n2]);
    TwoRoots(r0, n1, n2);
    assert N + 1 < MAX_ALPHA * 2;  // error 2002 cannot happen
    parent[n1], parent[n2] := N + 1, N + 1;
    weight[N + 1] := AddWeights(weight[n1], weight[n2]);
    parent[N + 1] := -1;
    kids := kids0[N + 1 := (n1, n2)];
    assert weight[..] == w[N + 1 := AddWeights(w[n1], w[n2])]
           && parent[..] == P[n1 := N + 1][n2 := N + 1][N + 1 := -1];
    MakesMerge(N, w, P, kids0, n1, n2, weight[..], parent[..], kids);
    GrowingStep(n, N, w, P, kids0, mx0, total, r0, n1, n2, weight[..], parent[..], kids);
    GreedyStep(n, N, w, P, kids0, mx0, total, r0, n1, n2, weight[..], parent[..], kids);
  }

  lemma TwoRoots(r: set<int>, a: int, b: int)
    requires a in r && b in r && a != b
    ensures |r| >= 2
  {
    assert r == r - {a} - {b} + {a} + {b};
  }

  /** The two lightest trees become one. */
  method MergeTwo(heap: array<int>, weight: array<int>, parent: array<int>, n: int, N: int, nHeap0: int,
      ghost kids0: seq<(int, int)>, ghost mx0: int, ghost r0: set<int>, ghost total: int)
    returns (nNodes: int, nHeap: int, ghost kids: seq<(int, int)>, ghost mx: int, ghost r: set<int>)
    requires heap != weight && heap != parent && weight != parent
    requires heap.Length == MAX_ALPHA + 2 && weight.Length == parent.Length == ROOM
    requires Ordered(heap[..], weight[..], nHeap0) && Lists(heap[..], nHeap0, r0) && 2 <= nHeap0 == |r0|
    requires Growing(n, N, weight[..], parent[..], kids0, mx0, total, r0)
    requires Greedy(n, N, weight[..], parent[..], kids0)
    modifies heap, weight, parent
    ensures 1 <= nHeap == |r| == nHeap0 - 1 && Growing(n, nNodes, weight[..], parent[..], kids, mx, total, r)
    ensures Ordered(heap[..], weight[..], nHeap) && Lists(heap[..], nHeap, r)
    ensures KeepsLeaves(weight[..], old(weight[..]), n) && Greedy(n, nNodes, weight[..], parent[..], kids)
  {
    hide Growing, Ordered, Lists, Count, Greedy;
    ghost var w := weight[..];
    GrowingFacts(n, N, w, parent[..], kids0, mx0, total, r0);
    nHeap := nHeap0;
    var n1 := Pop(heap, weight, nHeap, r0);
    nHeap := nHeap - 1;
    var n2 := Pop(heap, weight, nHeap, r0 - {n1});
    nHeap := nHeap - 1;
    kids := Join(weight, parent, n, N, n1, n2, kids0, mx0, r0, total);
    nNodes := N + 1;
    StillOrdered(heap[..], w, weight[..], nHeap, r0 - {n1} - {n2}, N);
    Push(heap, weight, nHeap, nNodes, r0 - {n1} - {n2});
    nHeap := nHeap + 1;
    mx, r := Count(w[n2]), r0 - {n1} - {n2} + {nNodes};
    ListsSize(heap[..], nHeap, r);
  }

  /** Merges until one tree is left. */
  method Merge(heap: array<int>, weight: array<int>, parent: array<int>, n: int, ghost r0: set<int>, ghost total: int)
    returns (nNodes: int, ghost kids: seq<(int, int)>, ghost mx: int, ghost r: set<int>)
    requires heap != weight && heap != parent && weight != parent
    requires heap.Length == MAX_ALPHA + 2 && weight.Length == parent.Length == ROOM
    requires Ordered(heap[..], weight[..], n) && Lists(heap[..], n, r0) && |r0| == n
    requires Growing(n, n, weight[..], parent[..], seq(ROOM, _ => (0, 0)), 1, total, r0)
    modifies heap, weight, parent
    ensures Growing(n, nNodes, weight[..], parent[..], kids, mx, total, r) && |r| == 1
    ensures Greedy(n, nNodes, weight[..], parent[..], kids)
    ensures KeepsLeaves(weight[..], old(weight[..]), n)
  {
    hide Growing, Ordered, Lists;
    kids, mx, r := seq(ROOM, _ => (0, 0)), 1, r0;
    nNodes := n;
    var nHeap := n;
    GrowingFacts(n, n, weight[..], parent[..], kids, mx, total, r);
    while nHeap > 1
      invariant 1 <= nHeap == |r| && Growing(n, nNodes, weight[..], parent[..], kids, mx, total, r)
      invariant Ordered(heap[..], weight[..], nHeap) && Lists(heap[..], nHeap, r)
      invariant KeepsLeaves(weight[..], old(weight[..]), n) && Greedy(n, nNodes, weight[..], parent[..], kids)
      decreases nHeap
    {
      nNodes, nHeap, kids, mx, r := MergeTwo(heap, weight, parent, n, nNodes, nHeap, kids, mx, r, total);
    }
  }

  lemma MakesMerge(N: int, w: seq<int>, P: seq<int>, kids: seq<(int, int)>, a: int, b: int, w': seq<int>, P': seq<int>,
      kids': seq<(int, int)>)
    requires 1 <= N < ROOM - 1 && |w| == |P| == |kids| == ROOM && 1 <= a <= N && 1 <= b <= N && a != b && P[a] == -1
             && P[b] == -1
    requires Height(w[a]) < 34 && Height(w[b]) < 34
    requires w' == w[N + 1 := Weight(Count(w[a]) + Count(w[b]), 1 + if Height(w[a]) > Height(w[b])
                                     then Height(w[a]) else Height(w[b]))]
    requires P' == P[a := N + 1][b := N + 1][N + 1 := -1] && kids' == kids[N + 1 := (a, b)]
    ensures Merges(N, w, P, kids, a, b, w', P', kids')
  {
  }

  /** Reads every leaf's depth off the parent links. */
  method Measure(len: array<Byte>, parent: array<int>, n: int, maxLen: int, ghost N: int, ghost w: seq<int>,
      ghost kids: seq<(int, int)>)
    returns (tooLong: bool)
    requires parent.Length == ROOM && n <= len.Length && len as object != parent && Linked(n, N, w, parent[..], kids)
    requires (forall i :: 1 <= i < N ==> parent[i] != -1) && parent[N] == -1 && maxLen >= 0
    modifies len
    ensures forall i :: 0 <= i < n ==> len[i] == Depth(n, N, w, parent[..], kids, i + 1)
    ensures tooLong <==> exists i :: 0 <= i < n && len[i] > maxLen
  {
    ghost var P := parent[..];
    tooLong := false;
    var i := 1;
    while i <= n
      invariant 1 <= i <= n + 1 && parent[..] == P
      invariant forall k :: 0 <= k < i - 1 ==> len[k] == Depth(n, N, w, P, kids, k + 1)
      invariant tooLong <==> exists k :: 0 <= k < i - 1 && len[k] > maxLen
    {
      var j: nat := 0;
      var k := i;
      while parent[k] >= 0
        invariant 1 <= k <= N && parent[..] == P
        invariant j + Depth(n, N, w, P, kids, k) == Depth(n, N, w, P, kids, i)
        decreases N - k
      {
        assert parent[k] == P[k];
        k := parent[k];
        j := j + 1;
      }
      assert P[k] == -1;
      DepthHeight(n, N, w, P, kids, i);
      ghost var l0 := len[..];
      len[i - 1] := j;
      assert forall m :: 0 <= m < i - 1 ==> len[m] == l0[m];
      if j > maxLen { tooLong := true; }
      i := i + 1;
    }
  }

  // ---- flattening ----

  /** The weights after the r-th flattening. */
  ghost function Flattened(freq: seq<int>, r: nat): (c: seq<int>)
    ensures |c| == |freq|
  {
    if r == 0 then seq(|freq|, i requires 0 <= i < |freq| => AtLeastOne(freq[i]))
    else
      var c := Flattened(freq, r - 1);
      seq(|freq|, i requires 0 <= i < |freq| => 1 + c[i] / 2)
  }

  /** Some code that is best for these weights is too long somewhere. */
  ghost predicate TooDeep(weights: seq<int>, maxLen: nat) {
    exists lens :: Optimal(weights, lens) && exists i :: 0 <= i < |lens| && lens[i] > maxLen
  }

  /** The lengths are best for the weights of round r, and no earlier round would do. */
  ghost predicate LastRound(freq: seq<int>, lens: seq<int>, maxLen: nat, r: nat) {
    Optimal(Flattened(freq, r), lens) && forall k: nat :: k < r ==> TooDeep(Flattened(freq, k), maxLen)
  }

  function Halved(w: int): int { Weight(1 + Count(w) / 2, 0) }

  lemma {:induction false} HalvedSum(w: seq<int>, v: seq<int>, n: int)
    requires 0 <= n < |w| == |v| && forall k :: 1 <= k <= n ==> Count(w[k]) >= 1 && v[k] == Halved(w[k])
    ensures 2 * LeafSum(v, n) <= LeafSum(w, n) + 2 * n && LeafSum(v, n) <= LeafSum(w, n)
  {
    hide Weight, Count;
    if n > 0 {
      HalvedSum(w, v, n - 1);
      MergedWeight(1 + Count(w[n]) / 2, 0);
    }
  }

  method Flatten(weight: array<int>, n: int, ghost w0: seq<int>)
    requires weight.Length == ROOM && Leaves(w0, n) && KeepsLeaves(weight[..], w0, n)
    modifies weight
    ensures Leaves(weight[..], n)
    ensures 2 * LeafSum(weight[..], n) <= LeafSum(w0, n) + 2 * n && LeafSum(weight[..], n) <= LeafSum(w0, n)
    ensures forall i :: 0 <= i < n ==> Counts(weight[..], n)[i] == 1 + Counts(w0, n)[i] / 2
  {
    hide Weight, Count, Height;
    var i := 1;
    while i <= n
      invariant 1 <= i <= n + 1
      invariant forall k :: 1 <= k < i ==> weight[k] == Halved(w0[k])
      invariant forall k :: i <= k <= n ==> weight[k] == w0[k]
    {
      var j := Count(weight[i]);
      j := 1 + j / 2;
      weight[i] := Weight(j, 0);
      i := i + 1;
    }
    HalvedSum(w0, weight[..], n);
    forall k | 1 <= k <= n
      ensures weight[k] == Weight(Count(weight[k]), 0) && Count(weight[k]) == 1 + Count(w0[k]) / 2 >= 1
    {
      MergedWeight(1 + Count(w0[k]) / 2, 0);
    }
  }

  /** A tree deeper than twelve has more than twice as much weight as leaves, so flattening makes it lighter. */
  lemma DeepIsHeavy(n: int, N: int, w: seq<int>, P: seq<int>, kids: seq<(int, int)>, mx: int, total: int, r: set<int>,
      i: int)
    requires Growing(n, N, w, P, kids, mx, total, r) && |r| == 1 && 1 <= i <= n
    requires Linked(n, N, w, P, kids) && Depth(n, N, w, P, kids, i) > 12
    ensures total > 2 * n
  {
    OneRoot(n, N, w, P, kids, mx, total, r);
    hide Height, Growing;
    DepthHeight(n, N, w, P, kids, i);
    LeastMono(13, Height(w[N]));
    LeastValues();
  }

  method InitialWeights(freq: seq<int>, weight: array<int>, n: int)
    requires 2 <= n <= MAX_ALPHA && n <= |freq| && weight.Length == ROOM
    requires forall i :: 0 <= i < n ==> freq[i] >= 0
    modifies weight
    ensures Leaves(weight[..], n) && LeafSum(weight[..], n) == Total(freq[..n])
    ensures Counts(weight[..], n) == Flattened(freq[..n], 0)
  {
    hide Weight, Count;
    for i := 0 to n
      invariant forall k :: 1 <= k <= i ==> weight[k] == Weight(AtLeastOne(freq[k - 1]), 0)
    {
      weight[i + 1] := Weight(AtLeastOne(freq[i]), 0);
    }
    forall k | 1 <= k <= n ensures Count(weight[k]) == AtLeastOne(freq[k - 1]) {
      MergedWeight(AtLeastOne(freq[k - 1]), 0);
    }
    TotalLeaves(weight[..], freq, n);
  }

  lemma {:induction false} TotalLeaves(w: seq<int>, freq: seq<int>, n: int)
    requires 0 <= n <= |freq| && n < |w| && forall k :: 1 <= k <= n ==> Count(w[k]) == AtLeastOne(freq[k - 1])
    ensures LeafSum(w, n) == Total(freq[..n])
  {
    hide Count;
    if n > 0 {
      TotalLeaves(w, freq, n - 1);
      assert freq[..n][..n - 1] == freq[..n - 1];
    }
  }

  /** Grows one tree from the leaf weights and measures it. */
  method GrowAndMeasure(len: array<Byte>, heap: array<int>, weight: array<int>, parent: array<int>, n: int, maxLen: int)
    returns (tooLong: bool)
    requires heap != weight && heap != parent && weight != parent && len as object !in {heap, weight, parent}
    requires heap.Length == MAX_ALPHA + 2 && weight.Length == parent.Length == ROOM && n <= len.Length
    requires Leaves(weight[..], n) && LeafSum(weight[..], n) < MAX_TOTAL && 12 <= maxLen
    modifies len, heap, weight, parent
    ensures KeepsLeaves(weight[..], old(weight[..])[0 := 0], n)
    ensures !tooLong ==>
              (forall i :: 0 <= i < n ==> 1 <= len[i] <= maxLen) && KraftSum(len[..n], maxLen) == Pow2(maxLen)
    ensures tooLong ==> LeafSum(old(weight[..]), n) > 2 * n && TooDeep(Counts(old(weight[..]), n), maxLen)
    ensures !tooLong ==> Optimal(Counts(old(weight[..]), n), len[..n])
  {
    hide Growing, Ordered, Lists, Linked, Count, Height, Weight, Depth, KraftSum, Pow2, Greedy, Optimal;
    ghost var w0 := weight[..];
    ghost var total := LeafSum(w0, n);
    ghost var r0 := Plant(heap, weight, parent, n);
    LeafSumSame(weight[..], w0, n);
    GrowingStart(n, weight[..], parent[..], seq(ROOM, _ => (0, 0)), r0);
    var nNodes;
    ghost var kids, mx, r;
    nNodes, kids, mx, r := Merge(heap, weight, parent, n, r0, total);
    ghost var w, P := weight[..], parent[..];
    OneRoot(n, nNodes, w, P, kids, mx, total, r);
    GrowingFacts(n, nNodes, w, P, kids, mx, total, r);
    tooLong := Measure(len, parent, n, maxLen, nNodes, w, kids);
    assert parent[..] == P && weight[..] == w;
    assert forall i :: 0 <= i < n ==> len[..n][i] == Depth(n, nNodes, w, P, kids, i + 1);
    BestLengths(n, nNodes, w, P, kids, mx, total, r, len[..n]);
    assert Counts(w, n) == Counts(w0, n);
    if tooLong {
      ghost var i :| 0 <= i < n && len[i] > maxLen;
      DeepIsHeavy(n, nNodes, w, P, kids, mx, total, r, i + 1);
      assert len[..n][i] > maxLen;
    } else {
      TreeKraft(n, nNodes, w, P, kids, len[..n], maxLen);
    }
  }

  lemma BestLengths(n: int, N: int, w: seq<int>, P: seq<int>, kids: seq<(int, int)>, mx: int, total: int, r: set<int>,
      lens: seq<int>)
    requires Growing(n, N, w, P, kids, mx, total, r) && |r| == 1 && Greedy(n, N, w, P, kids) && |lens| == n
    requires Linked(n, N, w, P, kids) && forall i :: 0 <= i < n ==> lens[i] == Depth(n, N, w, P, kids, i + 1)
    ensures |w| == ROOM && Optimal(Counts(w, n), lens)
  {
    OneRoot(n, N, w, P, kids, mx, total, r);
    hide Linked, Settled, Greedy, Height, Optimal;
    forall k | 1 <= k <= N ensures Count(w[k]) >= 0 {
    }
    TreeOptimal(n, N, w, P, kids, lens);
  }

  lemma ZeroSlot(w: seq<int>, n: int)
    requires Leaves(w, n)
    ensures Leaves(w[0 := 0], n) && LeafSum(w[0 := 0], n) == LeafSum(w, n)
    ensures n < |w| && Counts(w[0 := 0], n) == Counts(w, n)
  {
    LeafSumSame(w[0 := 0], w, n);
  }

  /** Lengths from 1 to maxLen that make a complete prefix code, the cheapest there is for the frequencies, or,
      where a cheapest code would be too long, for the frequencies flattened. It always ends: a tree
      that is too deep is heavier than twice its leaves, and flattening then makes it lighter. */
  method MakeCodeLengths(len: array<Byte>, freq: seq<int>, alphaSize: int, maxLen: int)
    requires 2 <= alphaSize <= MAX_ALPHA && alphaSize <= len.Length && alphaSize <= |freq| && 12 <= maxLen
    requires (forall i :: 0 <= i < alphaSize ==> freq[i] >= 0) && Total(freq[..alphaSize]) < MAX_TOTAL
    modifies len
    ensures forall i :: 0 <= i < alphaSize ==> 1 <= len[i] <= maxLen
    ensures KraftSum(len[..alphaSize], maxLen) == Pow2(maxLen)
    ensures exists r: nat :: LastRound(freq[..alphaSize], len[..alphaSize], maxLen, r)
  {
    hide Leaves, LeafSum, KraftSum, Pow2, KeepsLeaves, Optimal, TooDeep;
    var heap, weight, parent := new int[MAX_ALPHA + 2], new int[ROOM], new int[ROOM];
    InitialWeights(freq, weight, alphaSize);
    ghost var r: nat := 0;
    while true
      invariant Leaves(weight[..], alphaSize) && LeafSum(weight[..], alphaSize) < MAX_TOTAL
      invariant Counts(weight[..], alphaSize) == Flattened(freq[..alphaSize], r)
      invariant forall k: nat :: k < r ==> TooDeep(Flattened(freq[..alphaSize], k), maxLen)
      decreases LeafSum(weight[..], alphaSize)
    {
      ghost var w0 := weight[..];
      ZeroSlot(w0, alphaSize);
      var tooLong := GrowAndMeasure(len, heap, weight, parent, alphaSize, maxLen);
      if !tooLong { break; }
      Flatten(weight, alphaSize, w0[0 := 0]);
      r := r + 1;
    }
    assert LastRound(freq[..alphaSize], len[..alphaSize], maxLen, r);
  }

  /** Where the frequencies themselves were used, a more frequent symbol has no longer code. */
  lemma FrequentFirst(freq: seq<int>, lens: seq<int>, maxLen: nat, i: int, j: int)
    requires LastRound(freq, lens, maxLen, 0) && |lens| == |freq| && Codable(lens, maxLen)
    requires 0 <= i < |freq| && 0 <= j < |freq| && freq[i] > freq[j] >= 1
    ensures lens[i] <= lens[j]
  {
    hide Optimal, Codable;
    FrequentShort(Flattened(freq, 0), lens, maxLen, i, j);
  }
}
