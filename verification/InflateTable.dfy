/** What a decoding table must hold: a root table indexed by the first bits of the
    stream, with links to sub-tables for longer codes. */
module InflateTable {
  import opened Bits
  import opened Radix
  import opened Reversal
  import opened InflateCodes

  datatype Kind = CODES | LENS | DISTS

  /** op, bits and val of the source's code structure. */
  datatype Entry = Entry(op: nat, bits: nat, val: nat)

  const LBASE: seq<nat> := [3, 4, 5, 6, 7, 8, 9, 10, 11, 13, 15, 17, 19, 23, 27, 31, 35, 43, 51, 59, 67, 83, 99, 115,
                            131, 163, 195, 227, 258, 0, 0]
  const LEXT: seq<nat> := [16, 16, 16, 16, 16, 16, 16, 16, 17, 17, 17, 17, 18, 18, 18, 18, 19, 19, 19, 19, 20, 20, 20,
                           20, 21, 21, 21, 21, 16, 72, 78]
  const DBASE: seq<nat> := [1, 2, 3, 4, 5, 7, 9, 13, 17, 25, 33, 49, 65, 97, 129, 193, 257, 385, 513, 769, 1025, 1537,
                            2049, 3073, 4097, 6145,
                            8193, 12289, 16385, 24577, 0, 0]
  const DEXT: seq<nat> := [16, 16, 16, 16, 17, 17, 18, 18, 19, 19, 20, 20, 21, 21, 22, 22, 23, 23, 24, 24, 25, 25, 26,
                           26, 27, 27, 28, 28, 29, 29, 64, 64]

  /** The symbols a table of each kind may have. */
  function Symbols(kind: Kind): nat {
    match kind case CODES => 19 case LENS => 288 case DISTS => 32
  }

  function LengthOp(sym: nat): nat
    requires 257 <= sym < 288
  {
    LEXT[sym - 257]
  }

  function LengthBase(sym: nat): nat
    requires 257 <= sym < 288
  {
    LBASE[sym - 257]
  }

  function DistOp(sym: nat): nat
    requires sym < 32
  {
    DEXT[sym]
  }

  function DistBase(sym: nat): nat
    requires sym < 32
  {
    DBASE[sym]
  }

  /** A literal, a length or distance with its base and extra bits, or the end of the block. */
  function SymbolEntry(kind: Kind, sym: nat, bits: nat): (e: Entry)
    requires sym < Symbols(kind)
    ensures e.bits == bits && !IsLink(e)
  {
    match kind
    case CODES => Entry(0, bits, sym)
    case LENS => if sym < 256 then Entry(0, bits, sym) else if sym > 256
                                                            then Entry(LengthOp(sym), bits, LengthBase(sym))
                                                                 else Entry(96, bits, 0)
    case DISTS => Entry(DistOp(sym), bits, DistBase(sym))
  }

  /** As the decoder tells a link from the rest: some low bits of op, none of the high ones. */
  predicate IsLink(e: Entry) { 0 < e.op < 16 }

  /** One decoding step: the entry for the bits x, and how many bits it uses in all. */
  ghost function Lookup(tab: seq<Entry>, root: nat, x: nat): (r: (Entry, nat)) {
    var i := Low(x, root);
    if i >= |tab| then (Entry(64, 0, 0), 0)
    else if !IsLink(tab[i]) then (tab[i], tab[i].bits)
    else
      var j := tab[i].val + Low(High(x, tab[i].bits), tab[i].op);
      if j >= |tab| then (Entry(64, 0, 0), 0) else (tab[j], tab[i].bits + tab[j].bits)
  }

  /** Looking up x stays inside the table, takes at most MAXBITS bits and ends at a symbol or an invalid marker. */
  ghost predicate Lands(kind: Kind, tab: seq<Entry>, root: nat, x: nat) {
    var i := Low(x, root);
    && i < |tab|
    && (IsLink(tab[i]) ==>
          var j := tab[i].val + Low(High(x, tab[i].bits), tab[i].op);
          tab[i].bits == root && root + tab[i].op <= MAXBITS && j < |tab| && !IsLink(tab[j]))
    && Lookup(tab, root, x).1 <= MAXBITS && EndsAt(kind, Lookup(tab, root, x).0)
  }

  ghost predicate EndsAt(kind: Kind, e: Entry) {
    e.op == 64 || exists s: nat :: s < Symbols(kind) && IsEntry(kind, e, s)
  }

  ghost predicate IsEntry(kind: Kind, e: Entry, s: nat)
    requires s < Symbols(kind)
  {
    e == SymbolEntry(kind, s, e.bits)
  }

  ghost predicate Sound(kind: Kind, tab: seq<Entry>, root: nat) {
    root <= MAXBITS && forall x: nat :: Lands(kind, tab, root, x)
  }

  // ---- cutting bit strings ----

  lemma {:induction false} LowLow(x: nat, a: nat, b: nat)
    requires b <= a
    ensures Low(Low(x, a), b) == Low(x, b)
    decreases b
  {
    if b > 0 {
      LowHalves(x, a);
      LowLow(x / 2, a - 1, b - 1);
    }
  }

  lemma {:induction false} HighOfLow(x: nat, a: nat, b: nat)
    requires b <= a
    ensures High(Low(x, a), b) == Low(High(x, b), a - b)
    decreases b
  {
    if b > 0 {
      LowHalves(x, a);
      HighOfLow(x / 2, a - 1, b - 1);
    }
  }

  /** The first a bits agree when the first b and the next a - b do. */
  lemma SamePrefix(x: nat, y: nat, a: nat, b: nat)
    requires b <= a && Low(x, b) == Low(y, b) && Low(High(x, b), a - b) == Low(High(y, b), a - b)
    ensures Low(x, a) == Low(y, a)
  {
    hide Low, High, Pow2;
    HighOfLow(x, a, b);
    HighOfLow(y, a, b);
    HighLow(Low(x, a), b);
    HighLow(Low(y, a), b);
    LowLow(x, a, b);
    LowLow(y, a, b);
  }

  // ---- the code being entered ----

  datatype Code = Code(kind: Kind, lens: seq<int>, work: seq<int>, m: nat, root: nat)

  /** A code that does not overfill its space, with its longest length m and a root size. */
  ghost predicate Good(c: Code) {
    && Sorted(c.lens, c.work) && 0 < |c.work| && c.lens[c.work[|c.work| - 1]] == c.m && 1 <= c.root <= c.m <= MAXBITS
    && (forall s :: 0 <= s < |c.lens| ==> c.lens[s] <= c.m)
    && |c.lens| <= Symbols(c.kind) && Used(c.lens, c.m) <= Pow2(c.m)
  }

  ghost function Len(c: Code, k: nat): (l: nat)
    requires Good(c) && k < |c.work|
    ensures 1 <= l <= c.m
  {
    c.lens[c.work[k]]
  }

  ghost function Val(c: Code, k: nat): nat
    requires Good(c) && k <= |c.work|
  {
    Value(c.lens, c.work, c.m, k)
  }

  /** The k-th code as the loop holds it, low bit first. */
  ghost function Huff(c: Code, k: nat): nat
    requires Good(c) && k < |c.work|
  {
    Rev(Val(c, k), c.m)
  }

  ghost predicate Begins(c: Code, x: nat, k: nat)
    requires Good(c) && k < |c.work|
  {
    Low(x, Len(c, k)) == Huff(c, k)
  }

  lemma LenMono(c: Code, j: nat, k: nat)
    requires Good(c) && j <= k < |c.work|
    ensures Len(c, j) <= Len(c, k)
  {
    SortedPair(c.lens, c.work, j, k);
  }

  lemma ValNext(c: Code, k: nat)
    requires Good(c) && k < |c.work|
    ensures Val(c, k + 1) == Val(c, k) + Pow2(c.m - Len(c, k)) <= Pow2(c.m)
    ensures k + 1 < |c.work| ==> Val(c, k + 1) < Pow2(c.m)
  {
    hide FirstCode, Equal, Sorted;
    ValueTotal(c.lens, c.work, c.m);
    ValueMono(c.lens, c.work, c.m, k + 1, |c.work|);
    if k + 1 < |c.work| {
      assert Value(c.lens, c.work, c.m, k + 2) > Value(c.lens, c.work, c.m, k + 1) by { LenRange(c, k + 1); }
      ValueMono(c.lens, c.work, c.m, k + 2, |c.work|);
    }
  }

  lemma LenRange(c: Code, k: nat)
    requires Good(c) && k < |c.work|
    ensures 0 <= c.work[k] < |c.lens| && c.lens[c.work[k]] <= c.m
  {
  }

  lemma ValMono(c: Code, j: nat, k: nat)
    requires Good(c) && j <= k <= |c.work|
    ensures Val(c, j) <= Val(c, k)
  {
    ValueMono(c.lens, c.work, c.m, j, k);
  }

  /** The loop's huff is the stream form of the symbol's code. */
  lemma HuffIs(c: Code, k: nat)
    requires Good(c) && k < |c.work|
    ensures 0 <= c.work[k] < |c.lens| && c.lens[c.work[k]] == Len(c, k)
    ensures Huff(c, k) == StreamCode(c.lens, c.work[k]) < Pow2(Len(c, k))
    ensures Val(c, k) == CodeOf(c.lens, c.work[k]) * Pow2(c.m - Len(c, k))
            && CodeOf(c.lens, c.work[k]) < Pow2(Len(c, k))
  {
    hide Sorted, CodeOf, FirstCode, Equal, Rev, Pow2, Used;
    LenRange(c, k);
    ValueIsCode(c.lens, c.work, c.m, k);
    ValNext(c, k);
    var l, v := Len(c, k), CodeOf(c.lens, c.work[k]);
    RevMultiple(v, c.m, l);
    RevBound(v, l);
    Pow2Add(l, c.m - l);
    QuotientSmall(v, 0, Pow2(l), Pow2(c.m - l));
  }

  /** x begins with the k-th code exactly when its reversal falls into that code's stretch. */
  lemma BeginsIs(c: Code, x: nat, k: nat)
    requires Good(c) && k < |c.work| && x < Pow2(c.m)
    ensures Begins(c, x, k) <==> Val(c, k) <= Rev(x, c.m) < Val(c, k + 1)
  {
    HuffIs(c, k);
    ValNext(c, k);
    hide Good, Low, Rev, Pow2;
    var l, v := Len(c, k), CodeOf(c.lens, c.work[k]);
    Matches(x, v, c.m, l);
    assert (v + 1) * Pow2(c.m - l) == v * Pow2(c.m - l) + Pow2(c.m - l);
  }

  /** Nothing begins with two codes. */
  lemma BeginsOnce(c: Code, x: nat, j: nat, k: nat)
    requires Good(c) && j < k < |c.work| && x < Pow2(c.m) && Begins(c, x, j)
    ensures !Begins(c, x, k)
  {
    hide Good, Begins, Rev;
    BeginsIs(c, x, j);
    BeginsIs(c, x, k);
    ValMono(c, j + 1, k);
  }

  lemma HuffBelow(c: Code, k: nat)
    requires Good(c) && k < |c.work|
    ensures Huff(c, k) < Pow2(c.m) && Begins(c, Huff(c, k), k)
  {
    HuffIs(c, k);
    hide Good, Pow2, Rev;
    LowSmall(Huff(c, k), Len(c, k));
    Pow2Monotone(Len(c, k), c.m);
  }

  /** What the first root bits of a longer code are, in the code space. */
  lemma PrefixIs(c: Code, k: nat)
    requires Good(c) && k < |c.work|
    ensures Low(Huff(c, k), c.root) == Rev(High(Val(c, k), c.m - c.root), c.root)
    ensures High(Val(c, k), c.m - c.root) < Pow2(c.root)
  {
    hide Rev, Low, High, Val, Pow2;
    RevLow(Val(c, k), c.m, c.root);
    ValNext(c, k);
    Pow2Pos(c.m - Len(c, k));
    HighLow(Val(c, k), c.m - c.root);
    Pow2Add(c.root, c.m - c.root);
    QuotientSmall(High(Val(c, k), c.m - c.root), Low(Val(c, k), c.m - c.root), Pow2(c.root), Pow2(c.m - c.root));
  }

  lemma Pow2Pos(n: nat)
    ensures Pow2(n) > 0
  {
  }

  lemma {:induction false} HighMono(u: nat, v: nat, b: nat)
    requires u <= v
    ensures High(u, b) <= High(v, b)
  {
    if b > 0 { HighMono(u / 2, v / 2, b - 1); }
  }

  /** Codes with the same first root bits come one after another. */
  lemma PrefixBetween(c: Code, j: nat, k: nat, n: nat)
    requires Good(c) && j <= k <= n < |c.work| && Low(Huff(c, j), c.root) == Low(Huff(c, n), c.root)
    ensures Low(Huff(c, k), c.root) == Low(Huff(c, n), c.root)
  {
    PrefixIs(c, j);
    PrefixIs(c, k);
    PrefixIs(c, n);
    hide Good, Rev, High, Low;
    ValMono(c, j, k);
    ValMono(c, k, n);
    HighMono(Val(c, j), Val(c, k), c.m - c.root);
    HighMono(Val(c, k), Val(c, n), c.m - c.root);
    RevInjective(High(Val(c, j), c.m - c.root), High(Val(c, n), c.m - c.root), c.root);
  }

  // ---- the table so far ----

  /** Where filling stands: the current sub-table's root slot, offset and size. */
  datatype Spot = Spot(low: int, off: nat, curr: nat)

  /** The bits x lead to the entry of the k-th code. */
  ghost predicate Reaches(c: Code, tab: seq<Entry>, x: nat, k: nat, p: Spot)
    requires Good(c) && k < |c.work|
  {
    var i, l := Low(x, c.root), Len(c, k);
    i < |tab| && (
      if l <= c.root then tab[i] == SymbolEntry(c.kind, c.work[k], l)
      else
        && tab[i].bits == c.root && IsLink(tab[i]) && c.root + tab[i].op <= c.m && Pow2(c.root) <= tab[i].val
        && (if i == p.low then tab[i].val == p.off && tab[i].op == p.curr else tab[i].val + Pow2(tab[i].op) <= p.off)
        && tab[i].val + Low(High(x, c.root), tab[i].op) < |tab|
        && tab[tab[i].val + Low(High(x, c.root), tab[i].op)] == SymbolEntry(c.kind, c.work[k], l - c.root)
    )
  }

  ghost predicate Placed(c: Code, tab: seq<Entry>, k: nat, p: Spot)
    requires Good(c) && k < |c.work|
  {
    forall x: nat :: x < Pow2(c.m) && Begins(c, x, k) ==> Reaches(c, tab, x, k, p)
  }

  ghost predicate AllPlaced(c: Code, tab: seq<Entry>, n: nat, p: Spot)
    requires Good(c) && n <= |c.work|
  {
    forall k: nat :: k < n ==> Placed(c, tab, k, p)
  }

  /** The spot suits the k-th code: the root table, or a sub-table that has room for all
      codes with the same first bits. */
  ghost predicate Suits(c: Code, tab: seq<Entry>, k: nat, p: Spot)
    requires Good(c) && k < |c.work|
  {
    if Len(c, k) <= c.root then p == Spot(-1, 0, c.root) && Pow2(c.root) <= |tab|
    else
      && p.low == Low(Huff(c, k), c.root) && 1 <= p.curr && c.root + p.curr <= c.m && Pow2(c.root) <= p.off
      && p.off + Pow2(p.curr) <= |tab| && p.low < |tab| && tab[p.low] == Entry(p.curr, c.root, p.off)
      && Roomy(c, k, p)
  }

  ghost predicate Roomy(c: Code, k: nat, p: Spot)
    requires Good(c) && k < |c.work|
  {
    forall j: nat :: k <= j < |c.work| && Low(Huff(c, j), c.root) == p.low ==> Len(c, j) <= c.root + p.curr
  }

  /** What slot i of the current table holds once the k-th code is entered. */
  ghost function Slot(c: Code, tab: seq<Entry>, k: nat, p: Spot, drop: nat, i: nat): Entry
    requires Good(c) && k < |c.work| && drop <= Len(c, k) && p.off + i < |tab|
  {
    if Low(i, Len(c, k) - drop) == High(Huff(c, k), drop) then SymbolEntry(c.kind, c.work[k], Len(c, k) - drop)
                                                               else tab[p.off + i]
  }

  /** The slots the k-th code fills are exactly those whose index begins with its bits. */
  ghost predicate Fills(c: Code, tab: seq<Entry>, tab': seq<Entry>, k: nat, p: Spot, drop: nat)
    requires Good(c) && k < |c.work|
  {
    && drop <= Len(c, k) && |tab'| == |tab| && p.off + Pow2(p.curr) <= |tab|
    && (forall q :: 0 <= q < |tab| && !(p.off <= q < p.off + Pow2(p.curr)) ==> tab'[q] == tab[q])
    && (forall i: nat :: i < Pow2(p.curr) ==>
          tab'[p.off + i] == Slot(c, tab, k, p, drop, i))
  }

  lemma WorkSym(c: Code, k: nat)
    requires Good(c) && k < |c.work|
    ensures 0 <= c.work[k] < Symbols(c.kind)
  {
  }

  // ---- a code in the root table ----

  lemma RootStep(c: Code, tab: seq<Entry>, tab': seq<Entry>, k: nat, p: Spot, j: nat)
    requires Good(c) && j <= k < |c.work| && Suits(c, tab, k, p) && Len(c, k) <= c.root && Fills(c, tab, tab', k, p, 0)
    requires j < k ==> Placed(c, tab, j, p)
    ensures Placed(c, tab', j, p)
  {
    LenMono(c, j, k);
    forall x: nat | x < Pow2(c.m) && Begins(c, x, j) ensures Reaches(c, tab', x, j, p) {
      RootReach(c, tab, tab', k, p, j, x);
    }
  }

  lemma RootReach(c: Code, tab: seq<Entry>, tab': seq<Entry>, k: nat, p: Spot, j: nat, x: nat)
    requires Good(c) && j <= k < |c.work| && Suits(c, tab, k, p) && Len(c, j) <= Len(c, k) <= c.root
             && Fills(c, tab, tab', k, p, 0)
    requires x < Pow2(c.m) && Begins(c, x, j) && (j < k ==> Reaches(c, tab, x, j, p))
    ensures Reaches(c, tab', x, j, p)
  {
    hide Good, Low, High, Pow2, Rev, SymbolEntry, Symbols;
    var i, l := Low(x, c.root), Len(c, k);
    LowBelow(x, c.root);
    LowLow(x, c.root, l);
    NoShift(Huff(c, k));
    if j < k { BeginsOnce(c, x, j, k); }
    WorkSym(c, k);
    assert tab'[p.off + i] == Slot(c, tab, k, p, 0, i);
  }

  // ---- a code in a sub-table ----

  lemma SubStep(c: Code, tab: seq<Entry>, tab': seq<Entry>, k: nat, p: Spot, j: nat)
    requires Good(c) && j <= k < |c.work| && Suits(c, tab, k, p) && Len(c, k) > c.root
             && Fills(c, tab, tab', k, p, c.root)
    requires j < k ==> Placed(c, tab, j, p)
    ensures Placed(c, tab', j, p)
  {
    forall x: nat | x < Pow2(c.m) && Begins(c, x, j) ensures Reaches(c, tab', x, j, p) {
      if j < k {
        assert Reaches(c, tab, x, j, p);
        SubKeeps(c, tab, tab', k, p, j, x);
      } else {
        SubReach(c, tab, tab', k, p, x);
      }
    }
  }

  /** The sub-table slot that bits beginning with the k-th code lead to. */
  lemma SubSlot(c: Code, k: nat, x: nat, curr: nat)
    requires Good(c) && k < |c.work| && c.root < Len(c, k) <= c.root + curr && Begins(c, x, k)
    ensures Low(x, c.root) == Low(Huff(c, k), c.root) < Pow2(c.root)
    ensures var y := Low(High(x, c.root), curr);
            y < Pow2(curr) && Low(y, Len(c, k) - c.root) == High(Huff(c, k), c.root)
  {
    hide Good, Low, High, Pow2, Rev;
    var l := Len(c, k);
    LowLow(x, l, c.root);
    LowBelow(High(x, c.root), curr);
    LowLow(High(x, c.root), curr, l - c.root);
    HighOfLow(x, l, c.root);
    LowBelow(x, c.root);
  }

  lemma SuitsRoom(c: Code, tab: seq<Entry>, k: nat, p: Spot)
    requires Good(c) && k < |c.work| && Suits(c, tab, k, p) && Len(c, k) > c.root
    ensures Len(c, k) <= c.root + p.curr && 0 < p.curr < 16
  {
    hide Rev, Low;
  }

  /** The code just entered is found. */
  lemma SubReach(c: Code, tab: seq<Entry>, tab': seq<Entry>, k: nat, p: Spot, x: nat)
    requires Good(c) && k < |c.work| && Suits(c, tab, k, p) && Len(c, k) > c.root && Fills(c, tab, tab', k, p, c.root)
    requires x < Pow2(c.m) && Begins(c, x, k)
    ensures Reaches(c, tab', x, k, p)
  {
    hide Good, Low, High, Pow2, Rev, SymbolEntry, Symbols, Roomy, Begins, Huff, Len;
    SuitsRoom(c, tab, k, p);
    SubSlot(c, k, x, p.curr);
    WorkSym(c, k);
    var y := Low(High(x, c.root), p.curr);
    assert tab'[p.off + y] == Slot(c, tab, k, p, c.root, y);
    assert tab'[Low(x, c.root)] == tab[Low(x, c.root)];
  }

  /** Codes entered before are not disturbed. */
  lemma SubKeeps(c: Code, tab: seq<Entry>, tab': seq<Entry>, k: nat, p: Spot, j: nat, x: nat)
    requires Good(c) && j < k < |c.work| && Suits(c, tab, k, p) && Len(c, k) > c.root
             && Fills(c, tab, tab', k, p, c.root)
    requires x < Pow2(c.m) && Begins(c, x, j) && Reaches(c, tab, x, j, p)
    ensures Reaches(c, tab', x, j, p)
  {
    hide Good, Low, High, Pow2, Rev, SymbolEntry, Symbols, Begins, Roomy;
    var i := Low(x, c.root);
    BeginsOnce(c, x, j, k);
    LowBelow(x, c.root);
    WorkSym(c, j);
    assert tab'[i] == tab[i];
    if Len(c, j) > c.root {
      LowBelow(High(x, c.root), tab[i].op);
      if i == p.low { SlotKept(c, tab, tab', k, p, x); }
    }
  }

  /** In the current sub-table, only bits that begin with the k-th code lead to a slot it fills. */
  lemma SlotKept(c: Code, tab: seq<Entry>, tab': seq<Entry>, k: nat, p: Spot, x: nat)
    requires Good(c) && k < |c.work| && Suits(c, tab, k, p) && Len(c, k) > c.root && Fills(c, tab, tab', k, p, c.root)
    requires Low(x, c.root) == p.low && !Begins(c, x, k)
    ensures var y := Low(High(x, c.root), p.curr); p.off + y < |tab| == |tab'| && tab'[p.off + y] == tab[p.off + y]
  {
    SuitsRoom(c, tab, k, p);
    var l, y := Len(c, k), Low(High(x, c.root), p.curr);
    hide Good, Low, High, Pow2, Rev, SymbolEntry, Symbols, Begins, Roomy;
    LowBelow(High(x, c.root), p.curr);
    LowLow(High(x, c.root), p.curr, l - c.root);
    if Low(y, l - c.root) == High(Huff(c, k), c.root) { SubSame(c, x, k); }
    WorkSym(c, k);
    assert tab'[p.off + y] == Slot(c, tab, k, p, c.root, y);
  }

  /** Same root bits and same bits after them: the same code. */
  lemma SubSame(c: Code, x: nat, k: nat)
    requires Good(c) && k < |c.work| && Len(c, k) > c.root
    requires Low(x, c.root) == Low(Huff(c, k), c.root) && Low(High(x, c.root), Len(c, k) - c.root)
             == High(Huff(c, k), c.root)
    ensures Begins(c, x, k)
  {
    HuffIs(c, k);
    hide Good, Rev, Pow2;
    var h, l := Huff(c, k), Len(c, k);
    LowSmall(h, l);
    HighOfLow(h, l, c.root);
    SamePrefix(x, h, l, c.root);
  }

  /** Entering the k-th code. */
  lemma EnterStep(c: Code, tab: seq<Entry>, tab': seq<Entry>, k: nat, p: Spot)
    requires Good(c) && k < |c.work| && Suits(c, tab, k, p) && AllPlaced(c, tab, k, p)
    requires Fills(c, tab, tab', k, p, if Len(c, k) <= c.root then 0 else c.root)
    ensures AllPlaced(c, tab', k + 1, p)
  {
    hide Good, Suits, Fills, Placed;
    forall j: nat | j < k + 1 ensures Placed(c, tab', j, p) {
      if Len(c, k) <= c.root {
        RootStep(c, tab, tab', k, p, j);
      } else {
        SubStep(c, tab, tab', k, p, j);
      }
    }
  }

  // ---- moving on ----

  /** The link that opens a new sub-table does not stand in the way of any code entered. */
  lemma NewLow(c: Code, k: nat, j: nat, x: nat, p: Spot)
    requires Good(c) && j <= k && k + 1 < |c.work| && Len(c, k + 1) > c.root
    requires Len(c, k) > c.root ==> Low(Huff(c, k), c.root) != Low(Huff(c, k + 1), c.root)
    requires x < Pow2(c.m) && Begins(c, x, j)
    ensures Low(x, c.root) != Low(Huff(c, k + 1), c.root)
  {
    var h := Huff(c, k + 1);
    HuffBelow(c, k + 1);
    hide Good, Rev, Pow2;
    if Low(x, c.root) == Low(h, c.root) {
      if Len(c, j) <= c.root {
        LowLow(x, c.root, Len(c, j));
        LowLow(h, c.root, Len(c, j));
        assert Begins(c, h, j);
        BeginsOnce(c, h, j, k + 1);
      } else {
        LenMono(c, j, k);
        LowLow(x, Len(c, j), c.root);
        PrefixBetween(c, j, k, k + 1);
      }
      assert false;
    }
  }

  lemma LinkKeeps(c: Code, tab: seq<Entry>, k: nat, p: Spot, p': Spot, j: nat)
    requires Good(c) && j <= k && k + 1 < |c.work| && Len(c, k + 1) > c.root && Suits(c, tab, k, p)
             && Placed(c, tab, j, p)
    requires Len(c, k) > c.root ==> Low(Huff(c, k), c.root) != Low(Huff(c, k + 1), c.root)
    requires p'.low == Low(Huff(c, k + 1), c.root) && p'.off == p.off + Pow2(p.curr) && 0 <= p'.low < Pow2(c.root)
    ensures p'.low < |tab| && Placed(c, tab[p'.low := Entry(p'.curr, c.root, p'.off)], j, p')
  {
    var tab' := tab[p'.low := Entry(p'.curr, c.root, p'.off)];
    forall x: nat | x < Pow2(c.m) && Begins(c, x, j) ensures Reaches(c, tab', x, j, p') {
      NewLow(c, k, j, x, p);
      assert Reaches(c, tab, x, j, p);
      hide Good, Rev, Begins;
      LowBelow(x, c.root);
      Pow2Pos(p.curr);
      hide Pow2, Low, High;
    }
  }

  /** A new sub-table is opened for the next code. */
  lemma LinkStep(c: Code, tab: seq<Entry>, k: nat, p: Spot, p': Spot)
    requires Good(c) && k + 1 < |c.work| && Len(c, k + 1) > c.root && Suits(c, tab, k, p) && AllPlaced(c, tab, k + 1, p)
    requires Len(c, k) > c.root ==> Low(Huff(c, k), c.root) != Low(Huff(c, k + 1), c.root)
    requires p'.low == Low(Huff(c, k + 1), c.root) && p'.off == p.off + Pow2(p.curr)
    requires 1 <= p'.curr && c.root + p'.curr <= c.m && p'.off + Pow2(p'.curr) <= |tab| && Roomy(c, k + 1, p')
    ensures 0 <= p'.low < |tab| && 0 <= p'.low < Pow2(c.root)
    ensures AllPlaced(c, tab[p'.low := Entry(p'.curr, c.root, p'.off)], k + 1, p')
    ensures Suits(c, tab[p'.low := Entry(p'.curr, c.root, p'.off)], k + 1, p')
  {
    LowBelow(Huff(c, k + 1), c.root);
    Pow2Pos(p.curr);
    Pow2Pos(p'.curr);
    assert Pow2(c.root) <= p'.off;
    hide Good, Rev, Pow2, Low, High, Placed, Roomy;
    var tab' := tab[p'.low := Entry(p'.curr, c.root, p'.off)];
    forall j: nat | j < k + 1 ensures Placed(c, tab', j, p') {
      LinkKeeps(c, tab, k, p, p', j);
    }
  }

  /** The next code goes into the same table. */
  lemma StayStep(c: Code, tab: seq<Entry>, k: nat, p: Spot)
    requires Good(c) && k + 1 < |c.work| && Suits(c, tab, k, p)
    requires Len(c, k + 1) <= c.root || Low(Huff(c, k + 1), c.root) == p.low
    ensures Suits(c, tab, k + 1, p)
  {
    LenMono(c, k, k + 1);
    hide Good, Rev, Pow2, Low, High, Huff;
  }

  /** The next huff. */
  lemma HuffNext(c: Code, k: nat)
    requires Good(c) && k + 1 < |c.work|
    ensures Huff(c, k) < Pow2(Len(c, k)) && Huff(c, k + 1) == Next(Huff(c, k), Len(c, k))
  {
    hide Rev, Pow2, Low, High, CodeOf, Next, FirstCode, Equal, Sorted;
    HuffIs(c, k);
    HuffIs(c, k + 1);
    NextCode(c.lens, c.work, k);
    ValNext(c, k);
    hide Good;
    var l, l', v := Len(c, k), Len(c, k + 1), CodeOf(c.lens, c.work[k]);
    NextRev(v, l);
    Pow2Add(l, c.m - l);
    Room(v, Pow2(l), Pow2(c.m - l));
    RevMultiple(v + 1, l', l);
  }

  lemma Room(v: nat, a: nat, p: nat)
    requires v * p + p < a * p && p > 0
    ensures v + 1 < a
  {
    if v + 1 >= a { MulMono(a, v + 1, p); }
    assert (v + 1) * p == v * p + p;
  }
}
