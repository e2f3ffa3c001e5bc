/** Distribution counting: where the items of each key go. */
module Radix {
  import opened Rotations

  /** How many keys are below v. */
  ghost function Below(keys: seq<int>, v: int): (r: nat)
    ensures r <= |keys|
  {
    if keys == [] then 0
    else Below(keys[..|keys| - 1], v) + (if keys[|keys| - 1] < v then 1 else 0)
  }

  /** How many keys equal v. */
  ghost function Equal(keys: seq<int>, v: int): (r: nat)
    ensures r <= |keys|
  {
    if keys == [] then 0
    else Equal(keys[..|keys| - 1], v) + (if keys[|keys| - 1] == v then 1 else 0)
  }

  lemma {:induction false} BelowNext(keys: seq<int>, v: int)
    ensures Below(keys, v + 1) == Below(keys, v) + Equal(keys, v)
  {
    if keys != [] { BelowNext(keys[..|keys| - 1], v); }
  }

  lemma {:induction false} BelowMono(keys: seq<int>, v: int, w: int)
    requires v <= w
    ensures Below(keys, v) <= Below(keys, w)
  {
    if keys != [] { BelowMono(keys[..|keys| - 1], v, w); }
  }

  lemma {:induction false} BelowEnds(keys: seq<int>, top: int)
    requires forall i :: 0 <= i < |keys| ==> 0 <= keys[i] < top
    ensures Below(keys, 0) == 0 && Below(keys, top) == |keys|
  {
    if keys != [] { BelowEnds(keys[..|keys| - 1], top); }
  }

  lemma {:induction false} EqualFirst(keys: seq<int>, v: int)
    requires keys != []
    ensures Equal(keys, v) == Equal(keys[1..], v) + (if keys[0] == v then 1 else 0)
  {
    if |keys| > 1 {
      EqualFirst(keys[..|keys| - 1], v);
      assert keys[1..][..|keys| - 2] == keys[..|keys| - 1][1..];
    }
  }

  /** The items in done have been written, from the end of their bucket down:
      tab[v] is the lowest position written for key v. */
  ghost predicate Placing(keys: seq<int>, f: seq<int>, tab: seq<int>, done: set<int>, top: int) {
    && 0 <= top <= |tab|
    && |f| == |keys|
    && (forall v :: 0 <= v < top ==> Below(keys, v) <= tab[v] <= Below(keys, v + 1))
    && (forall v, p :: 0 <= v < top && tab[v] <= p < Below(keys, v + 1) ==> Holds(keys, f, done, v, p))
    && (forall v, p, q :: 0 <= v < top && tab[v] <= p < q < Below(keys, v + 1) ==> f[p] != f[q])
  }

  /** Position p holds a finished item with key v. */
  ghost predicate Holds(keys: seq<int>, f: seq<int>, done: set<int>, v: int, p: int)
    requires 0 <= p < |f|
  {
    0 <= f[p] < |keys| && keys[f[p]] == v && f[p] in done
  }

  lemma PlacingStart(keys: seq<int>, f: seq<int>, tab: seq<int>, top: int)
    requires 0 <= top <= |tab| && |f| == |keys|
    requires forall v :: 0 <= v < top ==> tab[v] == Below(keys, v + 1)
    ensures Placing(keys, f, tab, {}, top)
  {
    forall v | 0 <= v < top ensures Below(keys, v) <= Below(keys, v + 1) { BelowMono(keys, v, v + 1); }
  }

  lemma PlaceWhere(keys: seq<int>, f: seq<int>, tab: seq<int>, done: set<int>, top: int, i: int, v: int, p: int)
    requires Placing(keys, f, tab, done, top)
    requires 0 <= i < |keys| && 0 <= keys[i] < top
    requires tab[keys[i]] > Below(keys, keys[i])
    requires 0 <= v < top && tab[v] - (if v == keys[i] then 1 else 0) <= p < Below(keys, v + 1)
    ensures if p == tab[keys[i]] - 1 then v == keys[i] else tab[v] <= p
  {
    hide Below;
    var v0 := keys[i];
    assert Below(keys, v0) <= tab[v0] <= Below(keys, v0 + 1) && Below(keys, v) <= tab[v];
    if v < v0 { BelowMono(keys, v + 1, v0); }
    if v > v0 { BelowMono(keys, v0 + 1, v); }
  }

  /** Writing one more item just below its bucket's lowest position. */
  lemma PlaceOne(keys: seq<int>, f: seq<int>, tab: seq<int>, done: set<int>, top: int, i: int)
    requires Placing(keys, f, tab, done, top)
    requires 0 <= i < |keys| && 0 <= keys[i] < top && i !in done
    requires Below(keys, keys[i]) < tab[keys[i]] <= |keys|
    ensures Placing(keys, f[tab[keys[i]] - 1 := i], tab[keys[i] := tab[keys[i]] - 1], done + {i}, top)
  {
    hide Below;
    var v0 := keys[i];
    var j := tab[v0] - 1;
    var f' := f[j := i];
    var tab' := tab[v0 := j];
    forall v, p | 0 <= v < top && tab'[v] <= p < Below(keys, v + 1)
      ensures Holds(keys, f', done + {i}, v, p)
    {
      PlaceWhere(keys, f, tab, done, top, i, v, p);
      assert p != j ==> Holds(keys, f, done, v, p);
    }
    forall v, p, q | 0 <= v < top && tab'[v] <= p < q < Below(keys, v + 1) ensures f'[p] != f'[q] {
      PlaceWhere(keys, f, tab, done, top, i, v, p);
      PlaceWhere(keys, f, tab, done, top, i, v, q);
      assert p != j ==> Holds(keys, f, done, v, p);
      assert q != j ==> Holds(keys, f, done, v, q);
    }
  }

  lemma PlacingRoom(keys: seq<int>, f: seq<int>, tab: seq<int>, done: set<int>, top: int, v: int)
    requires Placing(keys, f, tab, done, top) && 0 <= v < top
    ensures Below(keys, v) <= tab[v] <= |keys|
  {
    assert Below(keys, v + 1) <= |keys|;
  }

  /** Position p of a bucket holds an item of that bucket's key. */
  ghost predicate Bucketed(keys: seq<int>, f: seq<int>, top: int) {
    && |f| == |keys|
    && (forall p :: 0 <= p < |f| ==> 0 <= f[p] < |keys|)
    && (forall v, p :: 0 <= v < top && Below(keys, v) <= p < Below(keys, v + 1) ==> keys[f[p]] == v)
  }

  /** Every position lies in the bucket of exactly one key. */
  lemma FindBucket(keys: seq<int>, top: int, p: int) returns (v: int)
    requires forall i :: 0 <= i < |keys| ==> 0 <= keys[i] < top
    requires 0 <= p < |keys|
    ensures 0 <= v < top && Below(keys, v) <= p < Below(keys, v + 1)
  {
    BelowEnds(keys, top);
    v := 0;
    while Below(keys, v + 1) <= p
      invariant 0 <= v < top && Below(keys, v) <= p
      decreases top - v
    {
      v := v + 1;
    }
  }

  /** When everything has been written the result lists each item once, by key. */
  lemma PlacingDone(keys: seq<int>, f: seq<int>, tab: seq<int>, done: set<int>, top: int)
    requires Placing(keys, f, tab, done, top)
    requires forall i :: 0 <= i < |keys| ==> 0 <= keys[i] < top
    requires forall v :: 0 <= v < top ==> tab[v] == Below(keys, v)
    ensures IsPerm(f, |keys|) && Bucketed(keys, f, top)
  {
    forall p | 0 <= p < |keys| ensures 0 <= f[p] < |keys| {
      var v := FindBucket(keys, top, p);
      assert Holds(keys, f, done, v, p);
    }
    forall v, p | 0 <= v < top && Below(keys, v) <= p < Below(keys, v + 1) ensures keys[f[p]] == v {
      assert Holds(keys, f, done, v, p);
    }
    forall p, q | 0 <= p < q < |keys| ensures f[p] != f[q] {
      var v := FindBucket(keys, top, p);
      var w := FindBucket(keys, top, q);
      assert Holds(keys, f, done, v, p) && Holds(keys, f, done, w, q);
    }
  }

  /** Buckets come in key order. */
  lemma BucketedSorted(keys: seq<int>, f: seq<int>, top: int, p: int, q: int)
    requires Bucketed(keys, f, top) && 0 <= p <= q < |f|
    requires forall i :: 0 <= i < |keys| ==> 0 <= keys[i] < top
    ensures keys[f[p]] <= keys[f[q]]
    ensures Below(keys, keys[f[p]]) <= p < Below(keys, keys[f[p]] + 1)
  {
    var v := FindBucket(keys, top, p);
    var w := FindBucket(keys, top, q);
    if w < v { BelowMono(keys, w + 1, v); }
  }

  lemma {:induction false} EqualNone(s: seq<int>, v: int)
    requires forall i :: 0 <= i < |s| ==> s[i] != v
    ensures Equal(s, v) == 0
  {
    if s != [] {
      var k := |s| - 1;
      assert forall i :: 0 <= i < k ==> s[..k][i] == s[i];
      EqualNone(s[..k], v);
    }
  }

  lemma EqualNext(s: seq<int>, i: int, v: int)
    requires 0 <= i < |s|
    ensures Equal(s[..i + 1], v) == Equal(s[..i], v) + (if s[i] == v then 1 else 0)
  {
    assert s[..i + 1][..i] == s[..i];
  }
}
