/** Filling a decoding table code by code, and the whole table builder. */
module InflateFill {
  import opened Bits
  import opened Rotations
  import opened Radix
  import opened BwtTheory
  import opened Reversal
  import opened InflateCodes
  import opened InflateTable
  import opened InflateBuild
  import opened InflateSize

  // ---- filling ----

  /** Replicates an entry over all indices that begin with the code's bits. */
  method Replicate(table: array<Entry>, at: nat, h: nat, n: nat, curr: nat, here: Entry)
    requires n <= curr && h < Pow2(n) && at + Pow2(curr) <= table.Length
    modifies table
    ensures forall q :: 0 <= q < table.Length && !(at <= q < at + Pow2(curr)) ==> table[q] == old(table[q])
    ensures forall q :: at <= q < at + Pow2(curr) ==> table[q] == if Low(q - at, n) == h then here else old(table[q])
  {
    hide Pow2, Low;
    var incr, fill := Pow2(n), Pow2(curr);
    Pow2Add(curr - n, n);
    ghost var steps: nat := Pow2(curr - n);
    while true
      invariant 0 < steps && 0 < fill == steps * incr <= Pow2(curr)
      invariant forall q :: 0 <= q < table.Length && !(at <= q < at + Pow2(curr)) ==> table[q] == old(table[q])
      invariant forall q :: at <= q < at + fill ==> table[q] == old(table[q])
      invariant forall q :: at + fill <= q < at + Pow2(curr) ==>
                              table[q] == if Low(q - at, n) == h then here else old(table[q])
      decreases steps
    {
      ghost var was := fill;
      StepBack(steps, incr);
      fill := fill - incr;
      steps := steps - 1;
      forall i | fill <= i < was ensures Low(i, n) == h <==> i == fill + h { OneInStride(i, h, n, steps); }
      table[at + h + fill] := here;
      assert forall q :: at + fill <= q < at + was ==> table[q] == if Low(q - at, n) == h then here else old(table[q]);
      if fill == 0 { break; }
    }
  }

  lemma StepBack(steps: nat, incr: nat)
    requires steps > 0 && incr > 0
    ensures steps * incr - incr == (steps - 1) * incr && (steps > 1 <==> (steps - 1) * incr > 0)
  {
  }

  lemma OneInStride(i: nat, h: nat, n: nat, t: nat)
    requires h < Pow2(n) && t * Pow2(n) <= i < t * Pow2(n) + Pow2(n)
    ensures Low(i, n) == h <==> i == t * Pow2(n) + h
  {
    PartsAre(i, n, t, i - t * Pow2(n));
  }

  /** The smallest sub-table that holds all codes beginning with the same root bits. */
  method SubTableSize(count: array<int>, len: nat, root: nat, max: nat, ghost c: Code, ghost k: nat) returns (curr: nat)
    requires Good(c) && k < |c.work| && Counts(c, count[..], k) && len == Len(c, k) > c.root && root == c.root
             && max == c.m && Opens(c, k)
    ensures 1 <= curr && root + curr <= max && Roomy(c, k, Spot(Low(Huff(c, k), root), 0, curr))
    ensures Pow2(curr) == SubSize(c.lens, root, Low(Huff(c, k), root))
  {
    hide Low, Pow2, Space, Coming, Huff, Opens, SubSize;
    curr := len - root;
    var left: int := Pow2(curr);
    SpaceNone(c, k, len - 1);
    Pow2Next(curr - 1);
    while curr + root < max
      invariant 1 <= curr && root + curr <= max
      invariant left == Pow2(curr) - 2 * Space(c, k, root + curr - 1) > 0
      decreases max - curr
    {
      SpaceNext(c, k, root + curr);
      assert count[..][curr + root] == Coming(c, k, curr + root);
      left := left - count[curr + root];
      if left <= 0 { break; }
      Pow2Next(curr);
      curr := curr + 1;
      left := left * 2;
    }
    hide Good;
    forall j: nat | k <= j < |c.work| && Low(Huff(c, j), root) == Low(Huff(c, k), root)
      ensures Len(c, j) <= root + curr {
      FitsRoom(c, k, root + curr, j);
    }
    Pow2Next(curr - 1);
    ghost var j := SomeLong(c, k, root + curr);
    SizeIs(c, k, curr, j, Spot(Low(Huff(c, k), root), 0, curr));
  }

  // ---- the whole table ----

  /** The space the callers provide; code-length tables are not checked against it. */
  function Limit(kind: Kind): nat
    requires kind != CODES
  {
    if kind == LENS then ENOUGH_LENS else ENOUGH_DISTS
  }

  /** Enters the k-th code into the table at the spot. */
  method EnterCode(table: array<Entry>, start: nat, kind: Kind, sym: nat, len: nat, drop: nat, huff: nat, ghost c: Code,
      ghost k: nat, p: Spot)
    requires Good(c) && k < |c.work| && start <= table.Length && kind == c.kind && sym == c.work[k] && len == Len(c, k)
             && huff == Huff(c, k)
    requires drop == (if len <= c.root then 0 else c.root)
    requires Suits(c, table[start..], k, p) && AllPlaced(c, table[start..], k, p)
             && Covered(c, table[start..], k, p.off + Pow2(p.curr))
    modifies table
    ensures Suits(c, table[start..], k, p) && AllPlaced(c, table[start..], k + 1, p)
            && Covered(c, table[start..], k, p.off + Pow2(p.curr))
    ensures forall q :: 0 <= q < start ==> table[q] == old(table[q])
  {
    hide Good, Low, High, Pow2, SymbolEntry, Symbols, Covered, AllPlaced, Huff, Len, Roomy;
    ghost var tab := table[start..];
    SpotFacts(c, tab, k, p);
    WorkSym(c, k);
    HuffCut(c, k, drop);
    var here := SymbolEntry(kind, sym, len - drop);
    Replicate(table, start + p.off, High(huff, drop), len - drop, p.curr, here);
    ghost var tab' := table[start..];
    forall i: nat | i < Pow2(p.curr) ensures tab'[p.off + i] == InflateTable.Slot(c, tab, k, p, drop, i) {
      assert tab'[p.off + i] == table[start + p.off + i] && tab[p.off + i] == old(table[start + p.off + i]);
    }
    assert Fills(c, tab, tab', k, p, drop);
    EnterStep(c, tab, tab', k, p);
    EnterCovers(c, tab, tab', k, p);
    SuitsStill(c, tab, tab', k, p, drop);
  }

  lemma SpotFacts(c: Code, tab: seq<Entry>, k: nat, p: Spot)
    requires Good(c) && k < |c.work| && Suits(c, tab, k, p)
    ensures p.off + Pow2(p.curr) <= |tab| && Len(c, k) - (if Len(c, k) <= c.root then 0 else c.root) <= p.curr
    ensures Len(c, k) > c.root ==> p.low < Pow2(c.root) <= p.off && 1 <= p.curr
    ensures Len(c, k) <= c.root ==> p == Spot(-1, 0, c.root)
  {
    if Len(c, k) > c.root { LowBelow(Huff(c, k), c.root); }
    hide Good, Low, Pow2, Huff;
  }

  lemma HuffCut(c: Code, k: nat, drop: nat)
    requires Good(c) && k < |c.work| && drop <= Len(c, k)
    ensures Huff(c, k) < Pow2(Len(c, k)) && High(Huff(c, k), drop) < Pow2(Len(c, k) - drop)
  {
    HuffIs(c, k);
    hide Good, Pow2, High, Huff;
    HighLow(Huff(c, k), drop);
    Pow2Add(Len(c, k) - drop, drop);
    QuotientSmall(High(Huff(c, k), drop), Low(Huff(c, k), drop), Pow2(Len(c, k) - drop), Pow2(drop));
  }

  lemma SuitsStill(c: Code, tab: seq<Entry>, tab': seq<Entry>, k: nat, p: Spot, drop: nat)
    requires Good(c) && k < |c.work| && Suits(c, tab, k, p) && Fills(c, tab, tab', k, p, drop)
    ensures Suits(c, tab', k, p)
  {
    SpotFacts(c, tab, k, p);
    hide Good, Low, Pow2, Huff, InflateTable.Slot, Roomy;
  }

  /** Opens a sub-table for the next code, if the space allows. */
  method OpenSubTable(table: array<Entry>, start: nat, count: array<int>, kind: Kind, len: nat, root: nat, max: nat,
      huff: nat, ghost c: Code, ghost k: nat, p: Spot)
    returns (ok: bool, p': Spot)
    requires Good(c) && k + 1 < |c.work| && start <= table.Length && kind == c.kind && root == c.root && max == c.m
    requires len == Len(c, k + 1) > c.root && huff == Huff(c, k + 1) && Counts(c, count[..], k + 1)
    requires Len(c, k) > c.root ==> Low(Huff(c, k), c.root) != Low(huff, c.root)
    requires Suits(c, table[start..], k, p) && AllPlaced(c, table[start..], k + 1, p)
             && Covered(c, table[start..], k, p.off + Pow2(p.curr))
    requires kind != CODES && start + Limit(kind) <= table.Length
    modifies table
    ensures forall q :: 0 <= q < start ==> table[q] == old(table[q])
    ensures ok ==>
              Suits(c, table[start..], k + 1, p') && AllPlaced(c, table[start..], k + 1, p')
              && Covered(c, table[start..], k + 1, p'.off + Pow2(p'.curr))
    ensures ok <==> p'.off + Pow2(p'.curr) <= Limit(kind)
    ensures p'.off == p.off + Pow2(p.curr) && Pow2(p'.curr) == SubSize(c.lens, root, Low(huff, root))
  {
    hide Good, Low, High, Pow2, SymbolEntry, Symbols, Covered, AllPlaced, Huff, Len, Counts, Suits, SubSize;
    ghost var tab := table[start..];
    SpotFacts(c, tab, k, p);
    LowBelow(huff, root);
    var off := p.off + Pow2(p.curr);
    var curr := SubTableSize(count, len, root, max, c, k + 1);
    p' := Spot(Low(huff, root), off, curr);
    if off + Pow2(curr) > Limit(kind) { return false, p'; }
    hide Roomy;
    RoomyAt(c, k + 1, p', Spot(Low(huff, root), 0, curr));
    LinkStep(c, tab, k, p, p');
    LinkCovers(c, tab, k, p, p');
    table[start + p'.low] := Entry(curr, root, off);
    assert table[start..] == tab[p'.low := Entry(curr, root, off)];
    ok := true;
  }

  lemma RoomyAt(c: Code, k: nat, p: Spot, p0: Spot)
    requires Good(c) && k < |c.work| && Roomy(c, k, p0) && p.low == p0.low && p.curr == p0.curr
    ensures Roomy(c, k, p)
  {
  }

  /** Where the work ends: everything entered, every slot accounted for. */
  ghost predicate Finished(c: Code, tab: seq<Entry>, p: Spot)
    requires Good(c)
  {
    AllPlaced(c, tab, |c.work|, p) && Covered(c, tab, |c.work| - 1, p.off + Pow2(p.curr))
      && p.off + Pow2(p.curr) <= |tab| && Pow2(c.root) <= p.off + Pow2(p.curr)
  }

  // ---- the loop ----

  lemma WorkNonEmpty(c: Code)
    requires Good(c)
    ensures 0 < |c.work| && c.root <= c.m
  {
  }

  lemma StartHuff(c: Code)
    requires Good(c)
    ensures 0 < |c.work| && Huff(c, 0) == 0
  {
    RevNone(c.m);
  }

  lemma StartSuits(c: Code, tab: seq<Entry>)
    requires Good(c) && 0 < |c.work| && Len(c, 0) <= c.root && Pow2(c.root) <= |tab|
    ensures Suits(c, tab, 0, Spot(-1, 0, c.root)) && AllPlaced(c, tab, 0, Spot(-1, 0, c.root))
            && Covered(c, tab, 0, Pow2(c.root))
  {
    hide Good, Pow2;
  }

  lemma LenAt(c: Code, k: nat)
    requires Good(c) && k < |c.work|
    ensures 0 <= c.work[k] < |c.lens| && c.lens[c.work[k]] == Len(c, k)
  {
  }

  lemma LowIs(c: Code, tab: seq<Entry>, k: nat, p: Spot)
    requires Good(c) && k < |c.work| && Suits(c, tab, k, p)
    ensures Len(c, k) > c.root ==> Low(Huff(c, k), c.root) == p.low
  {
    hide Good;
  }

  lemma CoveredMore(c: Code, tab: seq<Entry>, k: nat, used: nat)
    requires Good(c) && Covered(c, tab, k, used)
    ensures Covered(c, tab, k + 1, used)
  {
    hide Good, CoveredBy;
    var k' := k + 1;
    forall q: nat | Pow2(c.root) <= q < used ensures SomeCover(c, tab, k', q) { assert SomeCover(c, tab, k, q); }
  }

  lemma CountsSize(c: Code, count: seq<int>, k: nat)
    requires Good(c) && k <= |c.work| && Counts(c, count, k)
    ensures |count| == MAXBITS + 1
  {
  }

  lemma LenTop(c: Code, k: nat)
    requires Good(c) && k < |c.work|
    ensures Len(c, k) <= c.m <= MAXBITS
  {
  }

  /** One round of the loop after the entry is made: the next code's number, count and length. */
  method NextCodeIn(count: array<int>, lens: seq<int>, work: array<int>, sym: nat, len0: nat, huff0: nat, max: nat,
      ghost c: Code)
    returns (done: bool, len: nat, huff: nat)
    requires Good(c) && sym < |c.work| <= work.Length && work[..|c.work|] == c.work && lens == c.lens && max == c.m
             && work != count
    requires Counts(c, count[..], sym) && len0 == Len(c, sym) && huff0 == Huff(c, sym)
    modifies count
    ensures done <==> sym + 1 == |c.work|
    ensures huff == Next(Huff(c, sym), len0)
    ensures done ==> len == len0
    ensures !done ==> len == Len(c, sym + 1) && huff == Huff(c, sym + 1) && Counts(c, count[..], sym + 1)
  {
    hide Good, Next, Huff, Len, Counts, Pow2, Low, High;
    ghost var count0 := count[..];
    HuffCut(c, sym, 0);
    LenTop(c, sym);
    CountsSize(c, count0, sym);
    huff := BackwardIncrement(huff0, len0);
    CountsNext(c, count0, sym);
    len := len0;
    count[len] := count[len] - 1;
    assert count[..] == count0[len := count0[len] - 1];
    if count[len] == 0 {
      if len == max { return true, len, huff; }
      LenAt(c, sym + 1);
      assert work[sym + 1] == work[..|c.work|][sym + 1];
      len := lens[work[sym + 1]];
    }
    HuffNext(c, sym);
    done := false;
  }

  /** Processes all codes in order. */
  method EnterAll(table: array<Entry>, start: nat, count: array<int>, kind: Kind, lens: seq<int>, work: array<int>,
      root: nat, max: nat, ghost c: Code)
    returns (ok: bool, p: Spot, huff: nat, len: nat, drop: nat)
    requires Good(c) && 0 < |c.work| && start + Pow2(root) <= table.Length
             && (kind != CODES ==> start + Limit(kind) <= table.Length)
    requires kind == c.kind && lens == c.lens && root == c.root && max == c.m && |c.work| <= work.Length
             && work[..|c.work|] == c.work
    requires Counts(c, count[..], 0) && count as object != table && work as object != table && work != count
    requires Len(c, 0) <= root && (if kind == CODES then max == root else Pow2(root) <= Limit(kind))
    modifies table, count
    ensures forall q :: 0 <= q < start ==> table[q] == old(table[q])
    ensures ok ==>
              Finished(c, table[start..], p) && len == Len(c, |c.work| - 1) && drop == (if len <= root then 0 else root)
    ensures ok ==> huff == Next(Huff(c, |c.work| - 1), len)
    ensures ok && len <= root ==> p == Spot(-1, 0, root)
    ensures if kind == CODES then ok else ok <==> Needed(lens, root) <= Limit(kind)
    ensures ok ==> p.off + Pow2(p.curr) == Needed(lens, root)
  {
    hide Good, Low, High, Pow2, SymbolEntry, Symbols, Covered, AllPlaced, Huff, Len, Counts, Suits, Next, Roomy,
      Finished, SeenSizes, SubSizes;
    SeenNothing(c, Pow2(root));
    WorkNonEmpty(c);
    LenAt(c, 0);
    StartHuff(c);
    StartSuits(c, table[start..]);
    var sym := 0;
    assert work[0] == work[..|c.work|][0];
    ok, p, huff, len, drop := true, Spot(-1, 0, root), 0, lens[work[0]], 0;
    while true
      invariant 0 <= sym < |c.work| && len == Len(c, sym) && huff == Huff(c, sym) && work[..|c.work|] == c.work
      invariant drop == (if len <= root then 0 else root) && Counts(c, count[..], sym)
      invariant Suits(c, table[start..], sym, p) && AllPlaced(c, table[start..], sym, p)
                && Covered(c, table[start..], sym, p.off + Pow2(p.curr))
      invariant forall q :: 0 <= q < start ==> table[q] == old(table[q])
      invariant ok && (kind != CODES ==> p.off + Pow2(p.curr) <= Limit(kind))
      invariant p.off + Pow2(p.curr) == Pow2(root) + SeenSizes(c, sym + 1, Pow2(root))
      decreases |c.work| - sym
    {
      assert work[sym] == work[..|c.work|][sym];
      WorkSym(c, sym);
      EnterCode(table, start, kind, work[sym], len, drop, huff, c, sym, p);
      var done;
      done, len, huff := NextCodeIn(count, lens, work, sym, len, huff, max, c);
      if done { break; }
      LowIs(c, table[start..], sym, p);
      SpotFacts(c, table[start..], sym, p);
      LenTop(c, sym + 1);
      LenMono(c, sym, sym + 1);
      if len > root && Low(huff, root) != p.low {
        drop := root;
        SizesOpen(c, table[start..], sym, p);
        ok, p := OpenSubTable(table, start, count, kind, len, root, max, huff, c, sym, p);
        if !ok { return; }
      } else {
        SizesStay(c, table[start..], sym, p);
        StayStep(c, table[start..], sym, p);
        CoveredMore(c, table[start..], sym, p.off + Pow2(p.curr));
      }
      sym := sym + 1;
    }
    SpotFacts(c, table[start..], sym, p);
    FinishedIs(c, table[start..], sym, p);
    SeenAll(c, Pow2(root));
  }

  /** The sizes when the next code opens a sub-table: they never exceed what is needed. */
  lemma SizesOpen(c: Code, tab: seq<Entry>, k: nat, p: Spot)
    requires Good(c) && k + 1 < |c.work| && Suits(c, tab, k, p) && Len(c, k + 1) > c.root
             && Low(Huff(c, k + 1), c.root) != p.low
    ensures SeenSizes(c, k + 2, Pow2(c.root))
            == SeenSizes(c, k + 1, Pow2(c.root)) + SubSize(c.lens, c.root, Low(Huff(c, k + 1), c.root))
    ensures SeenSizes(c, k + 2, Pow2(c.root)) <= SubSizes(c.lens, c.root, Pow2(c.root))
  {
    hide Good, Low, Pow2, Huff, Len, Roomy, SeenSizes, SubSizes, SubSize;
    LowIs(c, tab, k, p);
    OpensNew(c, k + 1);
    LowBelow(Huff(c, k + 1), c.root);
    SeenMore(c, k + 1, Pow2(c.root));
    SeenAtMost(c, k + 2, Pow2(c.root));
  }

  /** The sizes when it does not. */
  lemma SizesStay(c: Code, tab: seq<Entry>, k: nat, p: Spot)
    requires Good(c) && k + 1 < |c.work| && Suits(c, tab, k, p)
             && (Len(c, k + 1) <= c.root || Low(Huff(c, k + 1), c.root) == p.low)
    ensures SeenSizes(c, k + 2, Pow2(c.root)) == SeenSizes(c, k + 1, Pow2(c.root))
  {
    hide Good, Low, Pow2, Huff, Len, Roomy, SeenSizes;
    LowIs(c, tab, k, p);
    SeenStays(c, k + 1, Pow2(c.root));
  }

  lemma FinishedIs(c: Code, tab: seq<Entry>, k: nat, p: Spot)
    requires Good(c) && k + 1 == |c.work| && Suits(c, tab, k, p) && AllPlaced(c, tab, k + 1, p)
             && Covered(c, tab, k, p.off + Pow2(p.curr))
    ensures Finished(c, tab, p)
  {
    SpotFacts(c, tab, k, p);
    hide Good, Suits, AllPlaced, Covered, Pow2;
  }

  // ---- the code at hand ----

  /** How the last number came out: zero exactly when the code is full. */
  lemma LastNext(c: Code)
    requires Good(c) && 0 < |c.work|
    ensures Len(c, |c.work| - 1) == c.m
    ensures Next(Huff(c, |c.work| - 1), c.m) == if Full(c) then 0 else Rev(Used(c.lens, c.m), c.m)
    ensures c.m == 1 && !Full(c) ==> Rev(Used(c.lens, c.m), c.m) == 1
  {
    var k := |c.work| - 1;
    ValNext(c, k);
    ValueTotal(c.lens, c.work, c.m);
    Pow2Zero();
    hide Rev, Used, Sorted;
    NextRev(Val(c, k), c.m);
    if c.m == 1 && !Full(c) { OneReversed(); Pow2Next(0); }
  }

  lemma OneReversed()
    ensures Rev(1, 1) == 1
  {
    assert Rev(0, 0) == 0;
  }

  /** Only what the result uses matters. */
  lemma CutReaches(c: Code, tab: seq<Entry>, x: nat, k: nat, p: Spot, used: nat)
    requires Good(c) && k < |c.work| && Reaches(c, tab, x, k, p)
             && Pow2(c.root) <= used == p.off + Pow2(p.curr) <= |tab|
    ensures Reaches(c, tab[..used], x, k, p)
  {
    hide Good, Low, High, Pow2, SymbolEntry, Symbols, Rev;
    LowBelow(x, c.root);
    LowBelow(High(x, c.root), tab[Low(x, c.root)].op);
    WorkSym(c, k);
  }

  lemma CutPlaced(c: Code, tab: seq<Entry>, p: Spot, used: nat)
    requires Good(c) && AllPlaced(c, tab, |c.work|, p) && Pow2(c.root) <= used == p.off + Pow2(p.curr) <= |tab|
    ensures AllPlaced(c, tab[..used], |c.work|, p)
  {
    hide Good, Pow2, Reaches, Begins;
    forall k: nat | k < |c.work| ensures Placed(c, tab[..used], k, p) {
      assert Placed(c, tab, k, p);
      forall x: nat | x < Pow2(c.m) && Begins(c, x, k) ensures Reaches(c, tab[..used], x, k, p) {
        CutReaches(c, tab, x, k, p, used);
      }
    }
  }

  /** The marker in the one slot that a single one-bit code leaves. */
  lemma MarkPlaced(c: Code, tab: seq<Entry>, p: Spot, e: Entry)
    requires Good(c) && AllPlaced(c, tab, |c.work|, p) && c.m == 1 && !Full(c) && |tab| >= 2
    ensures AllPlaced(c, tab[1 := e], |c.work|, p)
  {
    SingleCode(c);
    hide Good, Pow2, SymbolEntry, Symbols, Rev;
    var tab' := tab[1 := e];
    forall k: nat | k < |c.work| ensures Placed(c, tab', k, p) {
      assert Placed(c, tab, k, p);
      forall x: nat | x < Pow2(c.m) && Begins(c, x, k) ensures Reaches(c, tab', x, k, p) {
        assert Reaches(c, tab, x, k, p);
      }
    }
  }

  lemma SingleCode(c: Code)
    requires Good(c) && c.m == 1 && !Full(c) && 0 < |c.work|
    ensures |c.work| == 1 && c.root == 1 && Huff(c, 0) == 0 && Len(c, 0) == 1 && Used(c.lens, 1) == 1
  {
    ValueTotal(c.lens, c.work, c.m);
    StartHuff(c);
    Pow2Zero();
    Pow2Next(0);
    ValNext(c, 0);
    LenTop(c, 0);
  }

  /** The slots of the finished table: each one written, but for the marker beside a single code. */
  ghost predicate AllWritten(kind: Kind, tab: seq<Entry>, root: nat) {
    forall q: nat :: q < |tab| ==> Written(kind, tab, root, q) || tab[q] == Entry(64, 1, 0)
  }

  // ---- the lengths as a whole ----

  lemma {:induction false} EqualSeen(lens: seq<int>, s: int)
    requires 0 <= s < |lens|
    ensures Equal(lens, lens[s]) > 0
  {
    if s < |lens| - 1 { EqualSeen(lens[..|lens| - 1], s); }
  }

  lemma EqualSome(lens: seq<int>, l: int) returns (s: int)
    requires Equal(lens, l) > 0
    ensures 0 <= s < |lens| && lens[s] == l
  {
    if forall i :: 0 <= i < |lens| ==> lens[i] != l { EqualNone(lens, l); }
    s :| 0 <= s < |lens| && lens[s] == l;
  }

  /** The longest length in use, zero if there is none. */
  method Longest(count: array<int>, ghost lens: seq<int>) returns (max: nat)
    requires Lens(lens) && count.Length == MAXBITS + 1 && forall l :: 0 <= l <= MAXBITS ==> count[l] == Equal(lens, l)
    ensures max <= MAXBITS && forall s :: 0 <= s < |lens| ==> lens[s] <= max
    ensures max > 0 ==> Equal(lens, max) > 0
  {
    hide Equal;
    forall s | 0 <= s < |lens| ensures Equal(lens, lens[s]) > 0 { EqualSeen(lens, s); }
    max := MAXBITS;
    while max >= 1
      invariant max <= MAXBITS && forall s :: 0 <= s < |lens| ==> lens[s] <= max
    {
      if count[max] != 0 { break; }
      max := max - 1;
    }
  }

  /** The shortest length in use. */
  method Shortest(count: array<int>, max: nat, ghost lens: seq<int>) returns (min: nat)
    requires Lens(lens) && count.Length == MAXBITS + 1 && forall l :: 0 <= l <= MAXBITS ==> count[l] == Equal(lens, l)
    requires 1 <= max <= MAXBITS && Equal(lens, max) > 0
    ensures 1 <= min <= max && Equal(lens, min) > 0 && forall s :: 0 <= s < |lens| && lens[s] > 0 ==> lens[s] >= min
  {
    hide Equal;
    forall s | 0 <= s < |lens| ensures Equal(lens, lens[s]) > 0 { EqualSeen(lens, s); }
    min := 1;
    while min < max
      invariant 1 <= min <= max && forall s :: 0 <= s < |lens| && lens[s] > 0 ==> lens[s] >= min
    {
      if count[min] != 0 { break; }
      min := min + 1;
    }
  }

  lemma MakeGood(kind: Kind, lens: seq<int>, work: seq<int>, m: nat, root: nat)
    requires Sorted(lens, work) && |lens| <= Symbols(kind) && 1 <= root <= m <= MAXBITS && Equal(lens, m) > 0
    requires (forall s :: 0 <= s < |lens| ==> lens[s] <= m) && CodeSpace(lens, MAXBITS) <= Pow2(MAXBITS)
    ensures Good(Code(kind, lens, work, m, root)) && 0 < |work|
    ensures Full(Code(kind, lens, work, m, root)) <==> CodeSpace(lens, MAXBITS) == Pow2(MAXBITS)
  {
    SpaceFits(lens, m);
    LastIs(lens, work, m);
    hide Sorted, Used, Equal, CodeSpace, Pow2;
  }

  lemma SpaceFits(lens: seq<int>, m: nat)
    requires 1 <= m <= MAXBITS && forall s :: 0 <= s < |lens| ==> lens[s] <= m
    ensures CodeSpace(lens, MAXBITS) <= Pow2(MAXBITS) <==> Used(lens, m) <= Pow2(m)
    ensures CodeSpace(lens, MAXBITS) == Pow2(MAXBITS) <==> Used(lens, m) == Pow2(m)
  {
    hide Used, Equal, CodeSpace, Pow2;
    UsedIsSpace(lens, MAXBITS);
    UsedBeyond(lens, m, MAXBITS);
    Pow2Add(m, MAXBITS - m);
    Cancel(Used(lens, m), Pow2(m), Pow2(MAXBITS - m));
  }

  lemma LastIs(lens: seq<int>, work: seq<int>, m: nat)
    requires Sorted(lens, work) && m > 0 && Equal(lens, m) > 0 && forall s :: 0 <= s < |lens| ==> lens[s] <= m
    ensures 0 < |work| && 0 <= work[|work| - 1] < |lens| && lens[work[|work| - 1]] == m
  {
    hide Equal;
    var s := EqualSome(lens, m);
    assert s in work;
    SortedPair(lens, work, |work| - 1, |work| - 1);
    AfterLast(lens, work, s);
  }

  lemma Cancel(a: nat, b: nat, p: nat)
    requires p > 0
    ensures a * p <= b * p <==> a <= b
    ensures a * p == b * p <==> a == b
  {
    if a > b { MulMono(b + 1, a, p); }
    if a < b { MulMono(a + 1, b, p); }
    assert (b + 1) * p == b * p + p && (a + 1) * p == a * p + p;
  }

  lemma MakeCounts(c: Code, count: seq<int>)
    requires Good(c) && |c.work| == |c.lens| - Below(c.lens, 1) && forall k :: 0 <= k < |c.work| ==>
               Rank(c.lens, c.work[k]) == k
    requires |count| == MAXBITS + 1 && forall l :: 0 <= l <= MAXBITS ==> count[l] == Equal(c.lens, l)
    ensures Counts(c, count, 0)
  {
    hide Good, Below, Equal, InflateCodes.Rank;
    forall l | 1 <= l <= MAXBITS ensures count[l] == Coming(c, 0, l) { ComingAll(c, l); }
  }

  lemma FirstShort(c: Code, min: nat)
    requires Good(c) && 0 < |c.work| && min > 0 && Equal(c.lens, min) > 0
    ensures Len(c, 0) <= min
  {
    var s := EqualSome(c.lens, min);
    BeforeFirst(c.lens, c.work, s);
    LenAt(c, 0);
  }

  /** The root table has the requested size, moved into the range of the lengths in use. */
  ghost predicate RootSize(lens: seq<int>, bits: nat, root: nat) {
    if forall s :: 0 <= s < |lens| ==> lens[s] <= 0 then root == 1
    else if forall s :: 0 <= s < |lens| ==> lens[s] < bits then
      root in lens && forall s :: 0 <= s < |lens| ==> lens[s] <= root
    else if forall s :: 0 <= s < |lens| && lens[s] > 0 ==> lens[s] > bits then
      root in lens && root > 0 && forall s :: 0 <= s < |lens| && lens[s] > 0 ==> lens[s] >= root
    else root == bits
  }

  /** What a successful build leaves. */
  ghost predicate Built(kind: Kind, lens: seq<int>, tab: seq<Entry>, root: nat)
    requires |lens| <= Symbols(kind)
  {
    1 <= root && Pow2(root) <= |tab| && Decodes(kind, lens, tab, root) && AllWritten(kind, tab, root)
      && Sound(kind, tab, root)
  }

  lemma FullBuilt(c: Code, tab: seq<Entry>, p: Spot)
    requires Good(c) && 0 < |c.work| && Full(c) && Finished(c, tab, p)
    ensures |c.lens| <= Symbols(c.kind) && Built(c.kind, c.lens, tab[..p.off + Pow2(p.curr)], c.root)
  {
    var used := p.off + Pow2(p.curr);
    CutPlaced(c, tab, p, used);
    AllDecode(c, tab[..used], p);
    FullSound(c, tab[..used], p);
    assert 1 <= c.root;
    hide Good, Full, Symbols, Pow2, Decodes, SymbolEntry, AllPlaced, Covered, Sound;
    forall q: nat | q < used ensures Written(c.kind, tab[..used], c.root, q) { SlotWritten(c, tab, p, q); }
  }

  lemma SingleBuilt(c: Code, tab: seq<Entry>, p: Spot)
    requires Good(c) && 0 < |c.work| && !Full(c) && c.m == 1 && Finished(c, tab, p) && p == Spot(-1, 0, 1)
    ensures |c.lens| <= Symbols(c.kind) && |tab| >= 2 && Pow2(1) == 2
            && Built(c.kind, c.lens, tab[1 := Entry(64, 1, 0)][..2], c.root)
  {
    Pow2Zero();
    Pow2Next(0);
    var tab' := tab[1 := Entry(64, 1, 0)];
    MarkPlaced(c, tab, p, Entry(64, 1, 0));
    SingleCode(c);
    CutPlaced(c, tab', p, 2);
    AllDecode(c, tab'[..2], p);
    SingleFirst(c, tab'[..2], p);
    SingleSound(c, tab'[..2], p);
  }

  lemma SingleSound(c: Code, tab: seq<Entry>, p: Spot)
    requires Good(c) && 0 < |c.work| && c.m == 1 == c.root && AllPlaced(c, tab, |c.work|, p) && Huff(c, 0) == 0
             && Len(c, 0) == 1
    requires |tab| == 2 && tab[1] == Entry(64, 1, 0)
    ensures Sound(c.kind, tab, 1)
  {
    hide Good, Placed, Reaches, SymbolEntry, Symbols;
    forall x: nat ensures Lands(c.kind, tab, 1, x) {
      assert Low(x, 1) == x % 2;
      if x % 2 == 0 {
        assert Begins(c, x, 0);
        assert Placed(c, tab, 0, p);
        ReachesLookup(c, tab, 0, p, x);
      }
    }
  }

  lemma SingleFirst(c: Code, tab: seq<Entry>, p: Spot)
    requires Good(c) && 0 < |c.work| && c.m == 1 == c.root && AllPlaced(c, tab, |c.work|, p) && Huff(c, 0) == 0
    ensures Written(c.kind, tab, 1, 0)
  {
    LenTop(c, 0);
    WorkSym(c, 0);
    hide Good, SymbolEntry, Symbols;
    assert Placed(c, tab, 0, p);
    assert Begins(c, 0, 0);
    assert Reaches(c, tab, 0, 0, p);
    assert IsEntry(c.kind, tab[0], c.work[0]);
  }

  lemma EmptyBuilt(kind: Kind, lens: seq<int>, tab: seq<Entry>)
    requires |lens| <= Symbols(kind) && (forall s :: 0 <= s < |lens| ==> lens[s] <= 0)
             && tab == [Entry(64, 1, 0), Entry(64, 1, 0)]
    ensures Built(kind, lens, tab, 1)
  {
    hide SymbolEntry, Symbols;
    forall x: nat ensures Lands(kind, tab, 1, x) { assert Low(x, 1) == x % 2; }
  }

  lemma RefusedIs(kind: Kind, lens: seq<int>, max: nat)
    requires (forall s :: 0 <= s < |lens| ==> lens[s] <= max) && (max > 0 ==> Equal(lens, max) > 0) && Lens(lens)
    ensures Refused(kind, lens) <==>
      CodeSpace(lens, MAXBITS) > Pow2(MAXBITS) || (CodeSpace(lens, MAXBITS) < Pow2(MAXBITS) && max > 0
                                                   && (kind == CODES || max > 1))
  {
    hide Pow2;
    if max > 0 { var s := EqualSome(lens, max); }
  }

  lemma {:induction false} EmptySpace(lens: seq<int>, M: nat)
    requires forall s :: 0 <= s < |lens| ==> lens[s] <= 0
    ensures CodeSpace(lens, M) == 0
  {
    if lens != [] { EmptySpace(lens[..|lens| - 1], M); }
  }

  lemma EmptyRoot(lens: seq<int>, bits: nat)
    requires forall s :: 0 <= s < |lens| ==> lens[s] <= 0
    ensures RootSize(lens, bits, 1)
  {
  }

  lemma RootIs(lens: seq<int>, bits: nat, min: nat, max: nat, root: nat)
    requires 1 <= min <= max && Equal(lens, min) > 0 && Equal(lens, max) > 0
    requires forall s :: 0 <= s < |lens| ==> lens[s] <= max && (lens[s] > 0 ==> lens[s] >= min)
    requires root == if bits > max then max else if bits < min then min else bits
    ensures RootSize(lens, bits, root)
  {
    var s := EqualSome(lens, min);
    var t := EqualSome(lens, max);
  }

  lemma CodesRoot(lens: seq<int>, bits: nat, max: nat)
    requires Equal(lens, max) > 0 && forall s :: 0 <= s < |lens| ==> lens[s] <= bits
    ensures max <= bits && Pow2(max) <= Pow2(bits)
  {
    var s := EqualSome(lens, max);
    Pow2Monotone(max, bits);
  }

  lemma FinishedSize(c: Code, tab: seq<Entry>, p: Spot)
    requires Good(c) && Finished(c, tab, p)
    ensures Pow2(c.root) <= p.off + Pow2(p.curr) <= |tab|
  {
  }

  /** Sorts the symbols and fills the table for a code that has passed the checks. */
  method SortAndFill(kind: Kind, lens: seq<int>, table: array<Entry>, start: nat, bits: nat, work: array<int>,
      count: array<int>, root: nat, min: nat, max: nat)
    returns (rc: int, used: nat)
    requires Lens(lens) && |lens| <= Symbols(kind) && |lens| <= work.Length && work as object != table && count != work
             && count as object != table
    requires start + 2 <= table.Length && (kind != CODES ==> start + Limit(kind) <= table.Length)
    requires kind == CODES ==> root == max && start + Pow2(root) <= table.Length
    requires count.Length == MAXBITS + 1 && forall l :: 0 <= l <= MAXBITS ==> count[l] == Equal(lens, l)
    requires 1 <= min <= root <= max <= MAXBITS && Equal(lens, min) > 0 && Equal(lens, max) > 0
             && forall s :: 0 <= s < |lens| ==> lens[s] <= max
    requires CodeSpace(lens, MAXBITS) <= Pow2(MAXBITS) && (CodeSpace(lens, MAXBITS) < Pow2(MAXBITS) ==> max == 1)
    modifies table, work, count
    ensures forall q :: 0 <= q < start ==> table[q] == old(table[q])
    ensures rc == 0 || rc == 1
    ensures rc == 0 ==> start + used <= table.Length && Built(kind, lens, table[start..start + used], root)
    ensures if kind == CODES then rc == 0 else rc == 0 <==> Needed(lens, root) <= Limit(kind)
    ensures rc == 0 ==> used == Needed(lens, root)
  {
    hide Equal, CodeSpace, Decodes, SymbolEntry, Symbols, Good, Finished, Full, Pow2, Built, Counts, Sorted,
      InflateCodes.Rank, Below, Len, Huff, Next, SubSizes;
    var n := SortSymbols(lens, count, work);
    used := Pow2(root);
    if kind != CODES && used > Limit(kind) { return 1, used; }
    ghost var c := Code(kind, lens, work[..n], max, root);
    MakeGood(kind, lens, work[..n], max, root);
    MakeCounts(c, count[..]);
    FirstShort(c, min);
    var ok, p, huff, len, drop := EnterAll(table, start, count, kind, lens, work, root, max, c);
    used := p.off + Pow2(p.curr);
    if !ok { return 1, used; }
    ghost var tab := table[start..];
    FinishedSize(c, tab, p);
    LastNext(c);
    if huff != 0 {
      SingleBuilt(c, tab, p);
      table[start + p.off + huff] := Entry(64, len - drop, 0);
      assert table[start..start + used] == tab[1 := Entry(64, 1, 0)][..2];
    } else {
      FullBuilt(c, tab, p);
      assert table[start..start + used] == tab[..used];
    }
    rc := 0;
  }

  /** Builds the table for a code: refuses exactly the bad sets of lengths, and otherwise, unless the
      space runs out, leaves a table in which every code is found and no slot is unset. */
  method Build(kind: Kind, lens: seq<int>, table: array<Entry>, start: nat, bits: nat, work: array<int>)
    returns (rc: int, used: nat, root: nat)
    requires Lens(lens) && |lens| <= Symbols(kind) && |lens| <= work.Length && work as object != table
    requires start + 2 <= table.Length && (kind != CODES ==> start + Limit(kind) <= table.Length)
    requires kind == CODES ==> start + Pow2(bits) <= table.Length && forall s :: 0 <= s < |lens| ==> lens[s] <= bits
    modifies table, work
    ensures forall q :: 0 <= q < start ==> table[q] == old(table[q])
    ensures rc == -1 || rc == 0 || rc == 1
    ensures rc == -1 <==> Refused(kind, lens)
    ensures rc != -1 ==> RootSize(lens, bits, root) && (rc == 1 <==> kind != CODES && Needed(lens, root) > Limit(kind))
    ensures rc == 0 ==>
              used == Needed(lens, root) && start + used <= table.Length
              && Built(kind, lens, table[start..start + used], root)
  {
    hide Equal, CodeSpace, Refused, Decodes, SymbolEntry, Symbols, Good, Finished, Full, Pow2, Built, Counts, Sorted,
      InflateCodes.Rank, Below, RootSize, Len, Huff, Next, SubSizes;
    used, root := 0, bits;
    var count := CountLengths(lens);
    var max := Longest(count, lens);
    RefusedIs(kind, lens, max);
    if root > max { root := max; }
    if max == 0 {
      EmptySpace(lens, MAXBITS);
      table[start], table[start + 1] := Entry(64, 1, 0), Entry(64, 1, 0);
      EmptyBuilt(kind, lens, table[start..start + 2]);
      EmptyRoot(lens, bits);
      NothingBeyond(lens, 1, Pow2(1));
      Pow2Zero();
      Pow2Next(0);
      return 0, 2, 1;
    }
    var min := Shortest(count, max, lens);
    if root < min { root := min; }
    RootIs(lens, bits, min, max, root);
    if kind == CODES { CodesRoot(lens, bits, max); }
    var left := CheckSpace(count, lens);
    if left < 0 { return -1, used, root; }
    if left > 0 && (kind == CODES || max != 1) { return -1, used, root; }
    rc, used := SortAndFill(kind, lens, table, start, bits, work, count, root, min, max);
  }
}
