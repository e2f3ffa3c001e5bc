/** Building a decoding table from code lengths. */
module InflateBuild {
  import opened Bits
  import opened Rotations
  import opened Radix
  import opened BwtTheory
  import opened Reversal
  import opened InflateCodes
  import opened InflateTable

  const ENOUGH_LENS := 852
  const ENOUGH_DISTS := 592

  // ---- codes still to come ----

  ghost function Coming(c: Code, k: nat, l: int): (n: nat)
    requires Good(c) && k <= |c.work|
    decreases |c.work| - k
  {
    if k == |c.work| then 0 else (if Len(c, k) == l then 1 else 0) + Coming(c, k + 1, l)
  }

  /** The space codes from k on take among codes of at most T bits, in units of 2^-T. */
  ghost function Space(c: Code, k: nat, T: nat): (n: nat)
    requires Good(c) && k <= |c.work|
    decreases |c.work| - k
  {
    if k == |c.work| then 0 else (if Len(c, k) <= T then Pow2(T - Len(c, k)) else 0) + Space(c, k + 1, T)
  }

  lemma {:induction false} SpaceNext(c: Code, k: nat, T: nat)
    requires Good(c) && k <= |c.work| && T > 0
    ensures Space(c, k, T) == 2 * Space(c, k, T - 1) + Coming(c, k, T)
    decreases |c.work| - k
  {
    hide Good, Len;
    if k < |c.work| { SpaceNext(c, k + 1, T); }
  }

  lemma {:induction false} SpaceNone(c: Code, k: nat, T: nat)
    requires Good(c) && k <= |c.work| && (k < |c.work| ==> Len(c, k) > T)
    ensures Space(c, k, T) == 0
    decreases |c.work| - k
  {
    if k + 1 < |c.work| { LenMono(c, k, k + 1); }
    if k < |c.work| { SpaceNone(c, k + 1, T); }
  }

  /** How far values move while all codes of at most T bits go by. */
  lemma {:induction false} ValueSpace(c: Code, k: nat, j: nat, T: nat)
    requires Good(c) && k <= j < |c.work| && Len(c, j) > T && T <= c.m
    ensures Val(c, j) >= Val(c, k) + Space(c, k, T) * Pow2(c.m - T)
    decreases j - k
  {
    hide Good, Pow2, Val, Len;
    if k == j {
      SpaceNone(c, k, T);
    } else {
      ValueSpace(c, k + 1, j, T);
      ValNext(c, k);
      if Len(c, k) <= T { Pow2Add(T - Len(c, k), c.m - T); }
      SumTimes(if Len(c, k) <= T then Pow2(T - Len(c, k)) else 0, Space(c, k + 1, T), Pow2(c.m - T));
    }
  }

  lemma {:induction false} HighApart(u: nat, v: nat, b: nat)
    requires v >= u + Pow2(b)
    ensures High(u, b) < High(v, b)
  {
    if b > 0 { HighApart(u / 2, v / 2, b - 1); }
  }

  /** If the codes of at most T bits fill the sub-table, no longer code belongs to it. */
  lemma FitsRoom(c: Code, k: nat, T: nat, j: nat)
    requires Good(c) && k <= j < |c.work| && c.root < T <= c.m
    requires T == c.m || Space(c, k, T) >= Pow2(T - c.root)
    requires Low(Huff(c, j), c.root) == Low(Huff(c, k), c.root)
    ensures Len(c, j) <= T
  {
    if Len(c, j) > T {
      ValueSpace(c, k, j, T);
      Pow2Add(T - c.root, c.m - T);
      MulMono(Pow2(T - c.root), Space(c, k, T), Pow2(c.m - T));
      HighApart(Val(c, k), Val(c, j), c.m - c.root);
      PrefixIs(c, j);
      PrefixIs(c, k);
      RevInjective(High(Val(c, j), c.m - c.root), High(Val(c, k), c.m - c.root), c.root);
      assert false;
    }
  }

  // ---- counts ----

  lemma {:induction false} ComingRange(c: Code, k: nat, l: int, a: int, b: int)
    requires Good(c) && k <= |c.work| && 0 <= a <= b <= |c.work| && forall j: nat :: j < |c.work| ==>
               (Len(c, j) == l <==> a <= j < b)
    ensures Coming(c, k, l) == if k >= b then 0 else if k <= a then b - a else b - k
    decreases |c.work| - k
  {
    hide Good, Len;
    if k < |c.work| { ComingRange(c, k + 1, l, a, b); }
  }

  /** All codes of one length are still to come at the start. */
  lemma ComingAll(c: Code, l: int)
    requires Good(c) && l > 0 && |c.work| == |c.lens| - Below(c.lens, 1) && forall k :: 0 <= k < |c.work| ==>
               Rank(c.lens, c.work[k]) == k
    ensures Coming(c, 0, l) == Equal(c.lens, l)
  {
    hide Below, Equal;
    var a, b := Below(c.lens, l) - Below(c.lens, 1), Below(c.lens, l + 1) - Below(c.lens, 1);
    BelowMono(c.lens, 1, l);
    BelowMono(c.lens, l, l + 1);
    BelowNext(c.lens, l);
    forall j: nat | j < |c.work| ensures Len(c, j) == l <==> a <= j < b {
      InStretch(c, j, l);
    }
    ComingRange(c, 0, l, a, b);
  }

  lemma InStretch(c: Code, j: nat, l: int)
    requires Good(c) && l > 0 && j < |c.work| && Rank(c.lens, c.work[j]) == j
    ensures Len(c, j) == l <==> Below(c.lens, l) - Below(c.lens, 1) <= j < Below(c.lens, l + 1) - Below(c.lens, 1)
  {
    LenRange(c, j);
    hide Below, Equal, Good;
    var s := c.work[j];
    SlotBounds(c.lens, s);
    if c.lens[s] < l { BelowMono(c.lens, c.lens[s] + 1, l); }
    if c.lens[s] > l { BelowMono(c.lens, l + 1, c.lens[s]); }
  }

  ghost predicate Counts(c: Code, count: seq<int>, k: nat)
    requires Good(c) && k <= |c.work|
  {
    |count| == MAXBITS + 1 && forall l :: 1 <= l <= MAXBITS ==> count[l] == Coming(c, k, l)
  }

  lemma CountsNext(c: Code, count: seq<int>, k: nat)
    requires Good(c) && k < |c.work| && Counts(c, count, k)
    ensures Len(c, k) <= MAXBITS && Counts(c, count[Len(c, k) := count[Len(c, k)] - 1], k + 1)
    ensures k + 1 < |c.work| ==> (count[Len(c, k)] == 1 <==> Len(c, k + 1) != Len(c, k))
    ensures k + 1 == |c.work| ==> count[Len(c, k)] == 1 && Len(c, k) == c.m
    ensures k + 1 < |c.work| && Len(c, k) == c.m ==> Len(c, k + 1) == Len(c, k)
  {
    LenMax(c, k);
    if k + 1 < |c.work| {
      LenMono(c, k, k + 1);
      LenMax(c, k + 1);
      if Len(c, k + 1) != Len(c, k) { ComingNone(c, k + 1, Len(c, k)); }
    }
  }

  lemma LenMax(c: Code, k: nat)
    requires Good(c) && k < |c.work|
    ensures Len(c, k) <= c.m <= MAXBITS && (k == |c.work| - 1 ==> Len(c, k) == c.m)
  {
  }

  lemma {:induction false} ComingNone(c: Code, k: nat, l: int)
    requires Good(c) && k <= |c.work| && (k < |c.work| ==> Len(c, k) > l)
    ensures Coming(c, k, l) == 0
    decreases |c.work| - k
  {
    if k + 1 < |c.work| { LenMono(c, k, k + 1); }
    if k < |c.work| { ComingNone(c, k + 1, l); }
  }

  // ---- every slot ----

  /** Slot q belongs to the sub-table that was linked for the j-th code. */
  ghost predicate CoveredBy(c: Code, tab: seq<Entry>, j: nat, q: nat)
    requires Good(c)
  {
    && j < |c.work| && Len(c, j) > c.root
    && var i := Low(Huff(c, j), c.root);
       i < |tab| && IsLink(tab[i]) && c.root + tab[i].op <= c.m && tab[i].val <= q < tab[i].val + Pow2(tab[i].op)
  }

  ghost predicate Covered(c: Code, tab: seq<Entry>, k: nat, used: nat)
    requires Good(c)
  {
    forall q: nat :: Pow2(c.root) <= q < used ==> SomeCover(c, tab, k, q)
  }

  ghost predicate SomeCover(c: Code, tab: seq<Entry>, k: nat, q: nat)
    requires Good(c)
  {
    exists j: nat :: j <= k && CoveredBy(c, tab, j, q)
  }

  lemma EnterCovers(c: Code, tab: seq<Entry>, tab': seq<Entry>, k: nat, p: Spot)
    requires Good(c) && k < |c.work| && Suits(c, tab, k, p) && Covered(c, tab, k, p.off + Pow2(p.curr))
    requires Fills(c, tab, tab', k, p, if Len(c, k) <= c.root then 0 else c.root)
    ensures Covered(c, tab', k, p.off + Pow2(p.curr))
  {
    hide Good, Low, Pow2, InflateTable.Slot;
    if Len(c, k) > c.root {
      forall q: nat | Pow2(c.root) <= q < p.off + Pow2(p.curr) ensures SomeCover(c, tab', k, q) {
        assert SomeCover(c, tab, k, q);
        var j: nat :| j <= k && CoveredBy(c, tab, j, q);
        LowBelow(Huff(c, j), c.root);
        assert tab'[Low(Huff(c, j), c.root)] == tab[Low(Huff(c, j), c.root)];
        assert CoveredBy(c, tab', j, q);
      }
    }
  }

  lemma LinkCovers(c: Code, tab: seq<Entry>, k: nat, p: Spot, p': Spot)
    requires Good(c) && k + 1 < |c.work| && Len(c, k + 1) > c.root && Covered(c, tab, k, p.off + Pow2(p.curr))
    requires Len(c, k) > c.root ==> Low(Huff(c, k), c.root) != Low(Huff(c, k + 1), c.root)
    requires p'.low == Low(Huff(c, k + 1), c.root) < |tab| && p'.off == p.off + Pow2(p.curr) && 1 <= p'.curr
             && c.root + p'.curr <= c.m
    ensures Covered(c, tab[p'.low := Entry(p'.curr, c.root, p'.off)], k + 1, p'.off + Pow2(p'.curr))
  {
    var tab' := tab[p'.low := Entry(p'.curr, c.root, p'.off)];
    LinkOp(c, p'.curr);
    hide Good, Low, Pow2;
    var k' := k + 1;
    forall q: nat | Pow2(c.root) <= q < p'.off + Pow2(p'.curr) ensures SomeCover(c, tab', k', q) {
      if q < p'.off {
        assert SomeCover(c, tab, k, q);
        var j: nat :| j <= k && CoveredBy(c, tab, j, q);
        HuffBelow(c, j);
        NewLow(c, k, j, Huff(c, j), p);
        assert CoveredBy(c, tab', j, q);
      } else {
        assert CoveredBy(c, tab', k + 1, q);
      }
    }
  }

  lemma LinkOp(c: Code, curr: nat)
    requires Good(c) && 1 <= curr && c.root + curr <= c.m
    ensures 0 < curr < 16
  {
  }

  /** The codes fill the code space. */
  ghost predicate Full(c: Code)
    requires Good(c)
  {
    Used(c.lens, c.m) == Pow2(c.m)
  }

  /** In a full code everything begins with some code. */
  lemma Finds(c: Code, x: nat) returns (k: nat)
    requires Good(c) && Full(c) && x < Pow2(c.m)
    ensures k < |c.work| && Begins(c, x, k)
  {
    ValueTotal(c.lens, c.work, c.m);
    RevBound(x, c.m);
    hide Good, Rev, Used, Pow2;
    k := 0;
    assert Val(c, 0) == 0;
    while Val(c, k + 1) <= Rev(x, c.m)
      invariant k < |c.work| && Val(c, k) <= Rev(x, c.m)
      decreases |c.work| - k
    {
      k := k + 1;
    }
    BeginsIs(c, x, k);
  }

  /** A slot holds a link or some symbol's entry. */
  ghost predicate Written(kind: Kind, tab: seq<Entry>, root: nat, q: nat) {
    q < |tab| && ((q < Pow2(root) && IsLink(tab[q])) || exists s: nat :: s < Symbols(kind) && IsEntry(kind, tab[q], s))
  }

  /** At the end of a full code no slot is left out. */
  lemma SlotWritten(c: Code, tab: seq<Entry>, p: Spot, q: nat)
    requires Good(c) && Full(c) && AllPlaced(c, tab, |c.work|, p) && Covered(c, tab, |c.work| - 1, p.off + Pow2(p.curr))
    requires q < Pow2(c.root) || q < p.off + Pow2(p.curr)
    ensures Written(c.kind, tab, c.root, q)
  {
    hide Low, High, Pow2, Rev, SymbolEntry, Symbols, Begins, Huff, Len;
    if q < Pow2(c.root) {
      Pow2Monotone(c.root, c.m);
      var k := Finds(c, q);
      LowSmall(q, c.root);
      assert Placed(c, tab, k, p);
      assert Reaches(c, tab, q, k, p);
      WorkSym(c, k);
      if Len(c, k) <= c.root { assert IsEntry(c.kind, tab[q], c.work[k]); }
    } else {
      assert SomeCover(c, tab, |c.work| - 1, q);
      var j: nat :| j <= |c.work| - 1 && CoveredBy(c, tab, j, q);
      SubWritten(c, tab, p, j, q);
    }
  }

  lemma SubWritten(c: Code, tab: seq<Entry>, p: Spot, j: nat, q: nat)
    requires Good(c) && Full(c) && AllPlaced(c, tab, |c.work|, p) && CoveredBy(c, tab, j, q)
    ensures Written(c.kind, tab, c.root, q)
  {
    hide Low, High, Pow2, Rev, SymbolEntry, Symbols, Begins, Huff, Len;
    var i := Low(Huff(c, j), c.root);
    var y := q - tab[i].val;
    var x := y * Pow2(c.root) + i;
    LowBelow(Huff(c, j), c.root);
    PartsAre(x, c.root, y, i);
    Pow2Add(tab[i].op, c.root);
    MulMono(y + 1, Pow2(tab[i].op), Pow2(c.root));
    SumTimes(y, 1, Pow2(c.root));
    Pow2Monotone(tab[i].op + c.root, c.m);
    var k := Finds(c, x);
    assert Placed(c, tab, k, p);
    assert Reaches(c, tab, x, k, p);
    LowSmall(y, tab[i].op);
    WorkSym(c, k);
    assert IsEntry(c.kind, tab[q], c.work[k]);
  }

  // ---- what the caller gets ----

  /** Every bit string that begins with a symbol's code leads to that symbol's entry and
      drops exactly the code's length. */
  ghost predicate Decodes(kind: Kind, lens: seq<int>, tab: seq<Entry>, root: nat)
    requires |lens| <= Symbols(kind)
  {
    forall s: nat, x: nat :: s < |lens| && lens[s] > 0 && Low(x, lens[s]) == StreamCode(lens, s) ==>
      IsEntry(kind, Lookup(tab, root, x).0, s) && Lookup(tab, root, x).1 == lens[s]
  }

  lemma ReachesLookup(c: Code, tab: seq<Entry>, k: nat, p: Spot, x: nat)
    requires Good(c) && k < |c.work| && Placed(c, tab, k, p) && Begins(c, x, k)
    ensures 0 <= c.work[k] < Symbols(c.kind) && IsEntry(c.kind, Lookup(tab, c.root, x).0, c.work[k])
            && Lookup(tab, c.root, x).1 == Len(c, k)
    ensures Lands(c.kind, tab, c.root, x)
  {
    hide Good, Low, High, Pow2, Rev, SymbolEntry, Symbols, Begins, Huff, Len;
    var y := Low(x, c.m);
    BeginsLow(c, x, k);
    WorkSym(c, k);
    LenMax(c, k);
    assert Reaches(c, tab, y, k, p);
    HighOfLow(x, c.m, c.root);
    if Len(c, k) > c.root {
      LowLow(High(x, c.root), c.m - c.root, tab[Low(x, c.root)].op);
    }
    assert IsEntry(c.kind, Lookup(tab, c.root, x).0, c.work[k]);
  }

  /** Only the first m bits matter. */
  lemma BeginsLow(c: Code, x: nat, k: nat)
    requires Good(c) && k < |c.work| && Begins(c, x, k)
    ensures c.root <= c.m && Low(x, c.m) < Pow2(c.m) && Begins(c, Low(x, c.m), k)
            && Low(Low(x, c.m), c.root) == Low(x, c.root)
  {
    assert c.root <= c.m;
    hide Good, Low, Pow2, Huff;
    LowBelow(x, c.m);
    LowLow(x, c.m, Len(c, k));
    LowLow(x, c.m, c.root);
  }

  lemma AllDecode(c: Code, tab: seq<Entry>, p: Spot)
    requires Good(c) && AllPlaced(c, tab, |c.work|, p)
    ensures |c.lens| <= Symbols(c.kind) && Decodes(c.kind, c.lens, tab, c.root)
  {
    forall s: nat, x: nat | s < |c.lens| && c.lens[s] > 0 && Low(x, c.lens[s]) == StreamCode(c.lens, s)
      ensures IsEntry(c.kind, Lookup(tab, c.root, x).0, s) && Lookup(tab, c.root, x).1 == c.lens[s]
    {
      assert s in c.work;
      var k :| 0 <= k < |c.work| && c.work[k] == s;
      HuffIs(c, k);
      hide Good, Low, High, Pow2, Rev, SymbolEntry, Symbols, Lookup, IsEntry, Placed, StreamCode, Huff;
      assert Placed(c, tab, k, p);
      ReachesLookup(c, tab, k, p, x);
    }
  }

  // ---- reading the lengths ----

  method CountLengths(lens: seq<int>) returns (count: array<int>)
    requires Lens(lens)
    ensures fresh(count) && count.Length == MAXBITS + 1 && forall l :: 0 <= l <= MAXBITS ==> count[l] == Equal(lens, l)
  {
    hide Equal;
    count := new int[MAXBITS + 1](_ => 0);
    assert lens[..0] == [];
    NoneCounted(lens);
    for sym := 0 to |lens|
      invariant forall l :: 0 <= l <= MAXBITS ==> count[l] == Equal(lens[..sym], l)
    {
      forall l ensures Equal(lens[..sym + 1], l) == Equal(lens[..sym], l) + (if lens[sym] == l then 1 else 0) {
        EqualNext(lens, sym, l);
      }
      count[lens[sym]] := count[lens[sym]] + 1;
    }
    assert lens[..|lens|] == lens;
  }

  lemma NoneCounted(lens: seq<int>)
    ensures forall l :: Equal(lens[..0], l) == 0
  {
  }

  /** An over-subscribed set, or an incomplete one other than a single code of one bit outside a code-length code. */
  ghost predicate Refused(kind: Kind, lens: seq<int>) {
    || CodeSpace(lens, MAXBITS) > Pow2(MAXBITS)
    || (CodeSpace(lens, MAXBITS) < Pow2(MAXBITS) && (exists s :: 0 <= s < |lens| && lens[s] > 0)
        && (kind == CODES || exists s :: 0 <= s < |lens| && lens[s] > 1))
  }

  /** How much of the code space is left; negative as soon as the set is over-subscribed. */
  method CheckSpace(count: array<int>, ghost lens: seq<int>) returns (left: int)
    requires count.Length == MAXBITS + 1 && forall l :: 0 <= l <= MAXBITS ==> count[l] == Equal(lens, l)
    ensures if CodeSpace(lens, MAXBITS) > Pow2(MAXBITS) then left < 0
                                                             else left == Pow2(MAXBITS) - CodeSpace(lens, MAXBITS)
  {
    hide Equal, CodeSpace, Pow2, FirstCode;
    left := 1;
    UsedIsSpace(lens, MAXBITS);
    Pow2Zero();
    for len := 1 to MAXBITS + 1
      invariant len == 1 ==> left == 1
      invariant len > 1 ==> left == Pow2(len - 1) - Used(lens, len - 1) >= 0
    {
      Pow2Next(len - 1);
      if len > 1 { UsedNext(lens, len - 1); } else { UsedFirst(lens); }
      left := left * 2;
      left := left - count[len];
      if left < 0 {
        OverStays(lens, len, MAXBITS);
        return left;
      }
    }
  }

  lemma UsedFirst(lens: seq<int>)
    ensures Used(lens, 1) == Equal(lens, 1)
  {
  }

  lemma {:induction false} OverStays(lens: seq<int>, l: nat, l': nat)
    requires 0 < l <= l' && Used(lens, l) > Pow2(l)
    ensures Used(lens, l') > Pow2(l')
    decreases l'
  {
    hide Equal, FirstCode, Used;
    if l < l' {
      OverStays(lens, l, l' - 1);
      UsedNext(lens, l' - 1);
      Pow2Next(l' - 1);
    }
  }

  /** Sorts the symbols by length and number. */
  method SortSymbols(lens: seq<int>, count: array<int>, work: array<int>) returns (n: int)
    requires Lens(lens) && count.Length == MAXBITS + 1 && |lens| <= work.Length && work != count
    requires forall l :: 0 <= l <= MAXBITS ==> count[l] == Equal(lens, l)
    modifies work
    ensures 0 <= n <= |lens| && n == |lens| - Below(lens, 1)
    ensures Sorted(lens, work[..n]) && forall k :: 0 <= k < n ==> Rank(lens, work[k]) == k
  {
    hide Equal, Below, Sorted, InflateCodes.Rank;
    var offs := new int[MAXBITS + 1];
    offs[1] := 0;
    assert forall l :: 0 <= l <= MAXBITS ==> count[l] == Equal(lens, l);
    for len := 1 to MAXBITS
      invariant forall l :: 1 <= l <= len ==> offs[l] == Below(lens, l) - Below(lens, 1)
      invariant forall l :: 0 <= l <= MAXBITS ==> count[l] == Equal(lens, l)
    {
      BelowNext(lens, len);
      offs[len + 1] := offs[len] + count[len];
    }
    n := |lens| - BelowOne(lens);
    NoneCounted(lens);
    for sym := 0 to |lens|
      invariant forall l :: 1 <= l <= MAXBITS ==> offs[l] == Below(lens, l) - Below(lens, 1) + Equal(lens[..sym], l)
      invariant forall s :: 0 <= s < sym && lens[s] > 0 ==> 0 <= Rank(lens, s) < n && work[Rank(lens, s)] == s
    {
      forall l ensures Equal(lens[..sym + 1], l) == Equal(lens[..sym], l) + (if lens[sym] == l then 1 else 0) {
        EqualNext(lens, sym, l);
      }
      if lens[sym] != 0 {
        RankBounds(lens, sym);
        forall s | 0 <= s < sym && lens[s] > 0 ensures Rank(lens, s) != Rank(lens, sym) { RanksDiffer(lens, s, sym); }
        work[offs[lens[sym]]] := sym;
        offs[lens[sym]] := offs[lens[sym]] + 1;
      }
    }
    RanksSort(lens, work[..n]);
  }

  lemma RanksDiffer(lens: seq<int>, s: int, t: int)
    requires 0 <= s < t < |lens|
    ensures Rank(lens, s) != Rank(lens, t)
  {
    hide Below, Equal, BwtTheory.Slot;
    SlotOrder(lens, s, t);
    SlotOrder(lens, t, s);
  }

  /** How many symbols have no code. */
  function BelowOne(lens: seq<int>): (n: nat)
    ensures n == Below(lens, 1) <= |lens|
  {
    if lens == [] then 0 else BelowOne(lens[..|lens| - 1]) + (if lens[|lens| - 1] < 1 then 1 else 0)
  }

  /** In a full code every bit string lands. */
  lemma FullSound(c: Code, tab: seq<Entry>, p: Spot)
    requires Good(c) && Full(c) && AllPlaced(c, tab, |c.work|, p)
    ensures Sound(c.kind, tab, c.root)
  {
    assert c.root <= MAXBITS;
    hide Good, Full, Begins, Placed, Lands, Low;
    forall x: nat ensures Lands(c.kind, tab, c.root, x) {
      LowBelow(x, c.m);
      var k := Finds(c, Low(x, c.m));
      LongBegins(c, x, k);
      assert Placed(c, tab, k, p);
      ReachesLookup(c, tab, k, p, x);
    }
  }

  lemma LongBegins(c: Code, x: nat, k: nat)
    requires Good(c) && k < |c.work| && Begins(c, Low(x, c.m), k)
    ensures Begins(c, x, k)
  {
    hide Good, Low, Huff;
    LowLow(x, c.m, Len(c, k));
  }
}
