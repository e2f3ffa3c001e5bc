/** The heap of tree nodes, lightest at the top, with a sentinel at entry 0. */
module HuffmanHeap {
  import opened Rotations
  import opened Segments

  /** Entries 1..n of the heap are nodes known to the weight table. */
  ghost predicate Nodes(heap: seq<int>, weight: seq<int>, n: int) {
    && 0 <= n < |heap| && |weight| > 0 && heap[0] == 0 && weight[0] == 0
    && (forall z :: 1 <= z <= n ==> 0 < heap[z] < |weight| && weight[heap[z]] > 0)
  }

  ghost predicate Ordered(heap: seq<int>, weight: seq<int>, n: int) {
    && Nodes(heap, weight, n)
    && (forall z :: 2 <= z <= n ==> weight[heap[z / 2]] <= weight[heap[z]])
  }

  /** Ordered but for entry zz against its parent. */
  ghost predicate Rising(heap: seq<int>, weight: seq<int>, n: int, zz: int) {
    && Nodes(heap, weight, n) && 1 <= zz <= n
    && (forall z :: 2 <= z <= n && z != zz ==> weight[heap[z / 2]] <= weight[heap[z]])
    && (forall z :: 2 <= z <= n && z / 2 == zz && zz >= 2 ==> weight[heap[zz / 2]] <= weight[heap[z]])
  }

  /** Ordered but for entry zz against its children. */
  ghost predicate Sinking(heap: seq<int>, weight: seq<int>, n: int, zz: int) {
    && Nodes(heap, weight, n) && 1 <= zz <= n
    && (forall z :: 2 <= z <= n && z / 2 != zz ==> weight[heap[z / 2]] <= weight[heap[z]])
    && (forall z :: 2 <= z <= n && z / 2 == zz && zz >= 2 ==> weight[heap[zz / 2]] <= weight[heap[z]])
  }

  lemma RiseStep(heap: seq<int>, weight: seq<int>, n: int, zz: int)
    requires Rising(heap, weight, n, zz) && zz >= 2 && weight[heap[zz]] < weight[heap[zz / 2]]
    ensures Rising(Swapped(heap, zz, zz / 2), weight, n, zz / 2)
  {
  }

  lemma SinkStep(heap: seq<int>, weight: seq<int>, n: int, zz: int, yy: int)
    requires Sinking(heap, weight, n, zz) && 2 <= yy <= n && yy / 2 == zz
    requires weight[heap[yy]] <= weight[heap[zz]]
    requires forall z :: 2 <= z <= n && z / 2 == zz ==> weight[heap[yy]] <= weight[heap[z]]
    ensures Sinking(Swapped(heap, zz, yy), weight, n, yy)
  {
  }

  /** The top is lightest. */
  lemma {:induction false} TopLightest(heap: seq<int>, weight: seq<int>, n: int, z: int)
    requires Ordered(heap, weight, n) && 1 <= z <= n
    ensures weight[heap[1]] <= weight[heap[z]]
    decreases z
  {
    if z > 1 { TopLightest(heap, weight, n, z / 2); }
  }

  /** An element moved through a slot: the view with tmp in the slot is rearranged. */
  lemma ViewSwap(h: seq<int>, h0: seq<int>, zz: int, yy: int, tmp: int, n: int)
    requires 1 <= zz <= n < |h| && 1 <= yy <= n && zz != yy && SamePart(h[zz := tmp], h0, 1, n + 1)
    ensures Swapped(h[zz := tmp], zz, yy) == h[zz := h[yy]][yy := tmp]
    ensures SamePart(h[zz := h[yy]][yy := tmp], h0, 1, n + 1)
  {
    hide SamePart;
    var v := h[zz := tmp];
    SwapPart(v, zz, yy, 1, n + 1);
    assert v[yy] == h[yy];
    assert Swapped(v, zz, yy) == h[zz := h[yy]][yy := tmp];
    SamePartTrans(Swapped(v, zz, yy), v, h0, 1, n + 1);
  }

  /** UPHEAP: the last entry rises to its place. */
  method UpHeap(heap: array<int>, weight: array<int>, n: int)
    requires heap != weight && Rising(heap[..], weight[..], n, n)
    modifies heap
    ensures SamePart(heap[..], old(heap[..]), 1, n + 1) && Ordered(heap[..], weight[..], n)
  {
    hide SamePart;
    ghost var h0, w := heap[..], weight[..];
    var zz := n;
    var tmp := heap[zz];
    assert h0[zz := tmp] == h0;
    SamePartSelf(h0, 1, n + 1);
    while weight[tmp] < weight[heap[zz / 2]]
      invariant 1 <= zz <= n && SamePart(heap[..][zz := tmp], h0, 1, n + 1)
      invariant Rising(heap[..][zz := tmp], w, n, zz) && heap.Length == |h0|
      decreases zz
    {
      ghost var h1 := heap[..];
      RiseStep(h1[zz := tmp], w, n, zz);
      ViewSwap(h1, h0, zz, zz / 2, tmp, n);
      heap[zz] := heap[zz / 2];
      assert heap[..] == h1[zz := h1[zz / 2]];
      zz := zz / 2;
    }
    ghost var h2 := heap[..];
    heap[zz] := tmp;
    assert heap[..] == h2[zz := tmp];
  }

  lemma SinkFacts(heap: seq<int>, weight: seq<int>, n: int, zz: int, z: int)
    requires Sinking(heap, weight, n, zz) && 1 <= z <= n
    ensures n < |heap| && 0 < heap[z] < |weight|
  {
  }

  lemma SinkSize(heap: seq<int>, weight: seq<int>, n: int, zz: int)
    requires Sinking(heap, weight, n, zz)
    ensures 1 <= zz <= n < |heap|
  {
  }

  lemma SinkDone(heap: seq<int>, weight: seq<int>, n: int, zz: int)
    requires Sinking(heap, weight, n, zz)
    requires forall z :: 2 <= z <= n && z / 2 == zz ==> 0 <= heap[z] < |weight| && weight[heap[zz]] <= weight[heap[z]]
    ensures Ordered(heap, weight, n)
  {
  }

  /** The lighter child of entry zz, which itself is on its way down. */
  method LighterChild(heap: array<int>, weight: array<int>, n: int, zz: int, tmp: int) returns (yy: int)
    requires heap != weight && 1 <= zz < heap.Length && Sinking(heap[..][zz := tmp], weight[..], n, zz) && zz * 2 <= n
    ensures 2 <= yy <= n && yy / 2 == zz && yy < heap.Length && 0 < heap[yy] < weight.Length
    ensures forall z :: 2 <= z <= n && z / 2 == zz ==>
                          0 < heap[z] < weight.Length && weight[heap[yy]] <= weight[heap[z]]
  {
    ghost var v := heap[..][zz := tmp];
    yy := zz * 2;
    assert v[yy] == heap[yy] && (yy < n ==> v[yy + 1] == heap[yy + 1]);
    if yy < n && weight[heap[yy + 1]] < weight[heap[yy]] { yy := yy + 1; }
    forall z | 2 <= z <= n && z / 2 == zz ensures z == 2 * zz || z == 2 * zz + 1 { }
  }

  /** DOWNHEAP: the top sinks to its place. */
  method DownHeap(heap: array<int>, weight: array<int>, n: int)
    requires heap != weight && Sinking(heap[..], weight[..], n, 1)
    modifies heap
    ensures SamePart(heap[..], old(heap[..]), 1, n + 1) && Ordered(heap[..], weight[..], n)
  {
    SinkSize(heap[..], weight[..], n, 1);
    hide SamePart, Sinking, Ordered;
    ghost var h0, w := heap[..], weight[..];
    var zz := 1;
    var tmp := heap[zz];
    assert h0[zz := tmp] == h0;
    SamePartSelf(h0, 1, n + 1);
    while true
      invariant 1 <= zz <= n && SamePart(heap[..][zz := tmp], h0, 1, n + 1)
      invariant Sinking(heap[..][zz := tmp], w, n, zz) && heap.Length == |h0|
      decreases n - zz
    {
      ghost var h1, v := heap[..], heap[..][zz := tmp];
      SinkFacts(v, w, n, zz, zz);
      if zz * 2 > n { break; }
      var yy := LighterChild(heap, weight, n, zz, tmp);
      assert v[yy] == heap[yy];
      if weight[tmp] < weight[heap[yy]] {
        assert forall z :: 2 <= z <= n && z / 2 == zz ==> v[z] == heap[z];
        break;
      }
      SinkStep(v, w, n, zz, yy);
      ViewSwap(h1, h0, zz, yy, tmp, n);
      heap[zz] := heap[yy];
      assert heap[..] == h1[zz := h1[yy]];
      zz := yy;
    }
    ghost var h2 := heap[..];
    SinkDone(h2[zz := tmp], w, n, zz);
    heap[zz] := tmp;
    assert heap[..] == h2[zz := tmp];
  }

  // ---- the heap as a set of nodes ----

  /** Each node of r stands in the heap once. */
  ghost predicate Lists(heap: seq<int>, n: int, r: set<int>) {
    0 <= n < |heap| && multiset(heap[1..n + 1]) == multiset(r)
  }

  lemma ListsMember(heap: seq<int>, n: int, r: set<int>, z: int)
    requires Lists(heap, n, r) && 1 <= z <= n
    ensures heap[z] in r
  {
    assert heap[1..n + 1][z - 1] == heap[z];
    assert heap[z] in multiset(heap[1..n + 1]);
  }

  lemma ListsFind(heap: seq<int>, n: int, r: set<int>, x: int) returns (z: int)
    requires Lists(heap, n, r) && x in r
    ensures 1 <= z <= n && heap[z] == x
  {
    assert x in multiset(heap[1..n + 1]);
    var k :| 0 <= k < n && heap[1..n + 1][k] == x;
    z := k + 1;
  }

  lemma ListsPart(h: seq<int>, h0: seq<int>, n: int, r: set<int>)
    requires Lists(h0, n, r) && SamePart(h, h0, 1, n + 1)
    ensures Lists(h, n, r)
  {
  }

  lemma ListsSize(heap: seq<int>, n: int, r: set<int>)
    requires Lists(heap, n, r)
    ensures |r| == n
  {
    assert |multiset(r)| == |multiset(heap[1..n + 1])|;
  }

  /** Taking the top off: the last entry replaces it. */
  lemma ListsPop(heap: seq<int>, n: int, r: set<int>)
    requires Lists(heap, n, r) && n >= 1
    ensures Lists(heap[1 := heap[n]], n - 1, r - {heap[1]}) && heap[1] in r
  {
    ListsMember(heap, n, r, 1);
    var x, h := heap[1], heap[1 := heap[n]];
    if n == 1 {
      assert heap[1..2] == [x];
      assert h[1..1] == [];
      assert multiset(r) == multiset{x};
      forall y | y in r ensures y == x { assert y in multiset(r); }
      assert r == {x};
    } else {
      assert heap[1..n + 1] == [x] + heap[2..n] + [heap[n]];
      assert h[1..n] == [heap[n]] + heap[2..n];
      assert multiset(h[1..n]) == multiset(heap[1..n + 1]) - multiset{x};
      assert multiset(r - {x}) == multiset(r) - multiset{x};
    }
  }

  lemma ListsPush(heap: seq<int>, n: int, r: set<int>, x: int)
    requires Lists(heap, n, r) && n + 1 < |heap| && x !in r
    ensures Lists(heap[n + 1 := x], n + 1, r + {x})
  {
    var h := heap[n + 1 := x];
    assert h[1..n + 2] == heap[1..n + 1] + [x];
    assert multiset(r + {x}) == multiset(r) + multiset{x};
  }

  /** What replacing the top by the last entry leaves to be mended. */
  lemma PopSinks(heap: seq<int>, weight: seq<int>, n: int)
    requires Ordered(heap, weight, n) && n >= 2
    ensures Sinking(heap[1 := heap[n]], weight, n - 1, 1)
  {
  }

  lemma PushRises(heap: seq<int>, weight: seq<int>, n: int, x: int)
    requires Ordered(heap, weight, n) && n + 1 < |heap| && 0 < x < |weight| && weight[x] > 0
    ensures Rising(heap[n + 1 := x], weight, n + 1, n + 1)
  {
  }

  /** Removes and returns the lightest node. */
  /** The item at the top is the lightest of all. */
  lemma PopLightest(heap: seq<int>, weight: seq<int>, n: int, r: set<int>)
    requires Ordered(heap, weight, n) && Lists(heap, n, r) && n >= 1
    ensures |heap| > 1 && forall y :: y in r ==>
                                        0 < y < |weight| && 0 < heap[1] < |weight| && weight[heap[1]] <= weight[y]
  {
    hide Lists;
    forall y | y in r ensures 0 < y < |weight| && 0 < heap[1] < |weight| && weight[heap[1]] <= weight[y] {
      var z := ListsFind(heap, n, r, y);
      TopLightest(heap, weight, n, z);
    }
  }

  method Pop(heap: array<int>, weight: array<int>, nHeap: int, ghost r: set<int>) returns (x: int)
    requires heap != weight && Ordered(heap[..], weight[..], nHeap) && Lists(heap[..], nHeap, r) && nHeap >= 1
    modifies heap
    ensures heap[0] == 0 && Ordered(heap[..], weight[..], nHeap - 1) && Lists(heap[..], nHeap - 1, r - {x}) && x in r
            && 0 < x < weight.Length
    ensures forall y :: y in r ==> 0 < y < weight.Length && weight[x] <= weight[y]
  {
    hide SamePart, Lists, Sinking;
    ghost var h0, w := heap[..], weight[..];
    ListsPop(h0, nHeap, r);
    PopLightest(h0, w, nHeap, r);
    x := heap[1];
    heap[1] := heap[nHeap];
    ghost var h1 := heap[..];
    assert h1 == h0[1 := h0[nHeap]];
    if nHeap >= 2 {
      PopSinks(h0, w, nHeap);
      DownHeap(heap, weight, nHeap - 1);
      ListsPart(heap[..], h1, nHeap - 1, r - {x});
    }
  }

  method Push(heap: array<int>, weight: array<int>, nHeap: int, x: int, ghost r: set<int>)
    requires heap != weight && Ordered(heap[..], weight[..], nHeap) && Lists(heap[..], nHeap, r)
             && nHeap + 1 < heap.Length
    requires 0 < x < weight.Length && weight[x] > 0 && x !in r
    modifies heap
    ensures Ordered(heap[..], weight[..], nHeap + 1) && Lists(heap[..], nHeap + 1, r + {x})
  {
    hide SamePart, Lists, Ordered, Rising;
    ghost var h0, w := heap[..], weight[..];
    PushRises(h0, w, nHeap, x);
    ListsPush(h0, nHeap, r, x);
    heap[nHeap + 1] := x;
    ghost var h1 := heap[..];
    assert h1 == h0[nHeap + 1 := x];
    UpHeap(heap, weight, nHeap + 1);
    ListsPart(heap[..], h1, nHeap + 1, r + {x});
  }
}
