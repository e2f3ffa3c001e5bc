/** The decompressor on the bits the compressor writes: selectors and code lengths. */
module DecompressTables {
  import opened Bits
  import opened BitStream
  import opened HuffmanForest
  import opened HuffmanCodes
  import opened BwtTheory
  import opened MtfEncode
  import opened BlockFormat
  import opened BlockParts
  import opened DecompressMachine
  import opened DecompressSteps
  import opened DecompressRun
  import opened DecompressHeader
  import MTF = MoveToFront

  /** The whole mapping table. */
  lemma MapRun(s: Saved, used: seq<bool>, rest: seq<bool>) returns (t: Saved)
    requires Ready(s) && s.core.at.Mapping1? && s.core.inUse16 == [] && |used| == 256 && InUse(used) > 0
    ensures |s.maps| == 256
    ensures t == s.(maps := NewMaps(s.maps, used),
                    core := s.core.(inUse16 := RowsBits(used, 16), inUse := used, i := 16, j := t.core.j,
                                    nInUse := InUse(used), at := Selector1))
    ensures Ready(t) && Run(s, RowsBits(used, 16) + CellsBits(used, 16) + rest) == Run(t, rest)
  {
    assert |s.maps| == 256 by { hide SaneCore; }
    hide Run, Ready, RowsBits, CellsBits, CellsFrom, Sane, SeekRow, NewMaps, Settle, InUse;
    var all := RowsBits(used, 16);
    MapSplit(used, rest);
    RowsLead(s, used, CellsFrom(used, 0) + rest);
    var s1 := With(s, s.core.(inUse16 := all));
    var j' := CellsRun(s1, used, 0, s.core.j, rest);
    var u := With(s1, s1.core.(inUse := used, i := 16, j := j', at := MakeMaps));
    MapsMade(u, used);
    t := Settle(u);
  }

  lemma MapSplit(used: seq<bool>, rest: seq<bool>)
    requires |used| == 256
    ensures RowsBits(used, 16) + CellsBits(used, 16) + rest == RowsBits(used, 16)[0..] + (CellsFrom(used, 0) + rest)
  {
    hide RowsBits, CellsBits, CellsFrom;
    CellsZero(used);
  }

  lemma MapsMade(u: Saved, used: seq<bool>)
    requires Sane(u) && u.core.at == MakeMaps && u.core.inUse == used && |used| == 256 && InUse(used) > 0
    ensures Settle(u) == u.(maps := NewMaps(u.maps, used), core := u.core.(nInUse := InUse(used), at := Selector1))
  {
    hide Row, NewMaps;
  }

  // ---- selectors ----

  lemma CountTables(s: Saved, n: nat, rest: seq<bool>)
    requires Ready(s) && s.core.at.Selector1? && 2 <= n <= 6
    ensures var t := With(s, s.core.(nGroups := n, at := Selector2));
            Ready(t) && Run(s, BitsOf(n, 3) + rest) == Run(t, rest)
  {
    assert Pow2(3) == 8;
    hide Run, BitsOf, Row, Always, Pow2;
    TakeRun(s, 3, n, rest);
  }

  lemma CountSelectors(s: Saved, m: nat, rest: seq<bool>)
    requires Ready(s) && s.core.at.Selector2? && 1 <= m < Pow2(15)
    ensures var t := With(s, s.core.(nSelectors := m, i := 0, j := 0, selectorMtf := [], at := Selector3));
            Ready(t) && Run(s, BitsOf(m, 15) + rest) == Run(t, rest)
  {
    hide Run, BitsOf, Row, Always, Pow2;
    TakeRun(s, 15, m, rest);
  }

  lemma CountsRun(s: Saved, n: nat, m: nat, rest: seq<bool>)
    requires Ready(s) && s.core.at.Selector1? && 2 <= n <= 6 && 1 <= m < Pow2(15)
    ensures var t := With(s, s.core.(nGroups := n, nSelectors := m, i := 0, j := 0, selectorMtf := [],
                                     at := Selector3));
            Ready(t) && Run(s, BitsOf(n, 3) + (BitsOf(m, 15) + rest)) == Run(t, rest)
  {
    hide Run, BitsOf, Ready, Pow2;
    CountTables(s, n, BitsOf(m, 15) + rest);
    CountSelectors(With(s, s.core.(nGroups := n, at := Selector2)), m, rest);
  }

  /** The list positions of the selectors. */
  ghost function Positions(n: nat, sels: seq<Byte>): (p: seq<nat>)
    requires MTF.Encodable(n, sels)
    ensures |p| == |sels| && forall k :: 0 <= k < |p| ==> p[k] == SelectorMtf(n, sels, k) < n
  {
    seq(|sels|, k requires 0 <= k < |sels| => SelectorMtf(n, sels, k))
  }

  lemma {:induction false} PositionsUndone(n: nat, sels: seq<Byte>)
    requires MTF.Encodable(n, sels)
    ensures UndoSel(n, Positions(n, sels)) == (SelectorList(n, sels), sels)
  {
    hide SelectorMtf, MTF.Front, MTF.Listing;
    var p := Positions(n, sels);
    if sels != [] {
      var k := |sels| - 1;
      SelectorNext(n, sels, k);
      forall i | 0 <= i < k ensures p[..k][i] == SelectorMtf(n, sels[..k], i) { ShorterMtf(n, sels, k, i); }
      assert p[..k] == Positions(n, sels[..k]);
      PositionsUndone(n, sels[..k]);
      assert sels[..k + 1] == sels && sels == sels[..k] + [sels[k]];
    }
  }

  lemma ShorterMtf(n: nat, sels: seq<Byte>, k: nat, i: nat)
    requires MTF.Encodable(n, sels) && i < k <= |sels|
    ensures MTF.Encodable(n, sels[..k]) && SelectorMtf(n, sels[..k], i) == SelectorMtf(n, sels, i)
  {
    assert sels[..k][..i] == sels[..i];
  }

  /** The core when a selector's position has been read. */
  ghost function SelectorDone(c: Core, v: nat): Core {
    var c' := c.(selectorMtf := c.selectorMtf + [v], i := c.i + 1, j := 0);
    if c'.i < c'.nSelectors then c' else c'.(at := UndoSelectors)
  }

  lemma OneSelector(s: Saved, more: bool, rest: seq<bool>)
    requires Ready(s) && s.core.at.Selector3? && (more ==> s.core.j + 1 < s.core.nGroups)
    ensures var t := With(s, if more then s.core.(j := s.core.j + 1) else SelectorDone(s.core, s.core.j));
            Sane(t) && Ready(Settle(t)) && Run(s, [more] + rest) == Run(Settle(t), rest)
  {
    AfterCore(s, if more then 1 else 0);
    hide Run, Row, Always, Settle;
    BitRun(s, more, rest);
  }

  lemma SettleSelector(s: Saved)
    requires Sane(s) && s.core.at.Selector3?
    ensures Settle(s) == s
  {
    hide SaneCore;
  }

  lemma {:induction false} UnaryRun(s: Saved, v: nat, rest: seq<bool>)
    requires Ready(s) && s.core.at.Selector3? && s.core.j <= v < s.core.nGroups
    ensures var t := With(s, SelectorDone(s.core, v));
            Sane(t) && Ready(Settle(t)) && Run(s, Unary(v)[s.core.j..] + rest) == Run(Settle(t), rest)
    decreases v - s.core.j
  {
    hide Run, Ready, Sane, Settle;
    var j := s.core.j;
    var tail := Unary(v)[j + 1..];
    assert Unary(v)[j..] + rest == [Unary(v)[j]] + (tail + rest);
    OneSelector(s, Unary(v)[j], tail + rest);
    if j < v {
      var t := With(s, s.core.(j := j + 1));
      SettleSelector(t);
      UnaryRun(t, v, rest);
      assert SelectorDone(t.core, v) == SelectorDone(s.core, v);
    } else {
      assert tail + rest == rest;
    }
  }

  /** The rest of the selectors. */
  lemma {:induction false} PositionsRun(s: Saved, n: nat, sels: seq<Byte>, rest: seq<bool>)
    requires Ready(s) && s.core.at.Selector3? && MTF.Encodable(n, sels) && s.core.nGroups == n
             && s.core.nSelectors == |sels|
    requires s.core.j == 0 && s.core.i < |sels| && s.core.selectorMtf == Positions(n, sels)[..s.core.i]
    ensures var t := With(s, s.core.(selectorMtf := Positions(n, sels), i := |sels|, at := UndoSelectors));
            Sane(t) && Ready(Settle(t)) && Run(s, SelectorsFrom(n, sels, s.core.i) + rest) == Run(Settle(t), rest)
    decreases |sels| - s.core.i
  {
    hide Run, Ready, Sane, Settle, SelectorMtf, Unary, SelectorsFrom;
    var k := s.core.i;
    var v, after := SelectorMtf(n, sels, k), SelectorsFrom(n, sels, k + 1);
    SelectorsStep(n, sels, k);
    Assoc(Unary(v), after, rest);
    assert Unary(v)[0..] == Unary(v);
    UnaryRun(s, v, after + rest);
    var c := s.core.(selectorMtf := s.core.selectorMtf + [v], i := k + 1, j := 0);
    assert c.selectorMtf == Positions(n, sels)[..k + 1];
    if k + 1 < |sels| {
      var t := With(s, c);
      SettleSelector(t);
      PositionsRun(t, n, sels, rest);
      assert t.core.(selectorMtf := Positions(n, sels), i := |sels|, at := UndoSelectors)
        == s.core.(selectorMtf := Positions(n, sels), i := |sels|, at := UndoSelectors);
    } else {
      SelectorsStep(n, sels, k + 1);
      assert after + rest == rest && c.selectorMtf == Positions(n, sels);
    }
  }

  /** All about the selectors. */
  lemma SelectorsRun(s: Saved, n: nat, sels: seq<Byte>, rest: seq<bool>)
    requires Ready(s) && s.core.at.Selector1? && MTF.Encodable(n, sels) && 2 <= n <= 6 && 1 <= |sels| < Pow2(15)
    ensures var t := With(s, s.core.(nGroups := n, nSelectors := |sels|, i := |sels|, j := 0,
                                     selectorMtf := Positions(n, sels),
                                        selector := sels, lens := [], at := Coding1));
            Ready(t) && Run(s, BitsOf(n, 3) + BitsOf(|sels|, 15) + SelectorsBits(n, sels, |sels|) + rest)
              == Run(t, rest)
  {
    hide Run, Ready, Sane, SelectorsBits, BitsOf, SelectorsFrom, Positions, Pow2;
    var bits := SelectorsFrom(n, sels, 0);
    SelectorsStart(n, sels);
    Assoc(BitsOf(n, 3) + BitsOf(|sels|, 15), bits, rest);
    Assoc(BitsOf(n, 3), BitsOf(|sels|, 15), bits + rest);
    CountsRun(s, n, |sels|, bits + rest);
    var s1 := With(s, s.core.(nGroups := n, nSelectors := |sels|, i := 0, j := 0, selectorMtf := [], at := Selector3));
    PositionsRun(s1, n, sels, rest);
    var s2 := With(s1, s1.core.(selectorMtf := Positions(n, sels), i := |sels|, at := UndoSelectors));
    PositionsUndone(n, sels);
    SelectorsUndone(s2, n, sels);
  }

  lemma SelectorsUndone(s: Saved, n: nat, sels: seq<Byte>)
    requires Sane(s) && s.core.at == UndoSelectors && s.core.nGroups == n && MTF.Encodable(n, sels)
             && s.core.selectorMtf == Positions(n, sels)
    requires UndoSel(n, Positions(n, sels)).1 == sels
    ensures Settle(s) == With(s, s.core.(selector := sels, lens := [], at := Coding1))
  {
    hide Row, UndoSel;
  }

  // ---- code lengths ----

  lemma FirstLength(s: Saved, v: nat, rest: seq<bool>)
    requires Ready(s) && s.core.at.Coding1? && 1 <= v <= LONGEST
    ensures var t := With(s, s.core.(curr := v, i := 0, row := [], at := Coding2));
            Ready(t) && Run(s, BitsOf(v, 5) + rest) == Run(t, rest)
  {
    assert Pow2(5) == 32;
    hide Run, BitsOf, Row, Always, Pow2;
    TakeRun(s, 5, v, rest);
  }

  lemma LengthStep(s: Saved, up: bool, rest: seq<bool>)
    requires Ready(s) && s.core.at.Coding2? && 1 <= (if up then s.core.curr + 1 else s.core.curr - 1) <= LONGEST
    ensures var t := With(s, s.core.(curr := if up then s.core.curr + 1 else s.core.curr - 1));
            Ready(t) && Run(s, [true] + ([!up] + rest)) == Run(t, rest)
  {
    hide Run, Row, Always;
    BitRun(s, true, [!up] + rest);
    var s1 := With(s, s.core.(at := Coding3));
    assert Step(s, 1) == s1;
    BitRun(s1, !up, rest);
  }

  /** The core after a length is complete. */
  ghost function LengthDone(c: Core): Core {
    var c' := c.(row := c.row + [c.curr], i := c.i + 1);
    if c'.i < c'.nInUse + 2 then c'
    else c'.(lens := c.lens + [c'.row], at := if |c.lens| + 1 < c.nGroups then Coding1 else MakeTables)
  }

  lemma LengthEnd(s: Saved, rest: seq<bool>)
    requires Ready(s) && s.core.at.Coding2?
    ensures var t := With(s, LengthDone(s.core));
            Sane(t) && Ready(Settle(t)) && Run(s, [false] + rest) == Run(Settle(t), rest)
  {
    hide Run, Row, Always, Settle, StepCore, LengthDone, SaneCore;
    AfterCore(s, 0);
    BitRun(s, false, rest);
    LengthCore(s.core);
  }

  lemma LengthCore(c: Core)
    requires SaneCore(c) && c.at.Coding2?
    ensures StepCore(c, 0) == LengthDone(c)
  {
    hide Row, Always;
  }

  lemma {:induction false} DeltaRun(s: Saved, next: int, rest: seq<bool>)
    requires Ready(s) && s.core.at.Coding2? && 1 <= s.core.curr <= LONGEST && 1 <= next <= LONGEST
    ensures var t := With(s, LengthDone(s.core.(curr := next)));
            Sane(t) && Ready(Settle(t)) && Run(s, DeltaBits(s.core.curr, next) + rest) == Run(Settle(t), rest)
    decreases if s.core.curr < next then next - s.core.curr else s.core.curr - next
  {
    hide Run, Ready, Sane, Settle, LengthDone;
    var curr := s.core.curr;
    if curr == next {
      LengthEnd(s, rest);
      assert s.core.(curr := next) == s.core;
    } else {
      var up := curr < next;
      var curr' := if up then curr + 1 else curr - 1;
      var after := DeltaBits(curr', next) + rest;
      assert DeltaBits(curr, next) + rest == [true] + ([!up] + after);
      LengthStep(s, up, after);
      var t := With(s, s.core.(curr := curr'));
      DeltaRun(t, next, rest);
      assert t.core.(curr := next) == s.core.(curr := next);
    }
  }

  /** The core when a table's lengths have been read. */
  ghost function TableDone(c: Core, want: seq<int>): Core
    requires 0 < |want|
  {
    c.(row := want, curr := want[|want| - 1], i := |want|, lens := c.lens + [want], at := if |c.lens| + 1 < c.nGroups
       then Coding1 else MakeTables)
  }

  /** The rest of a table. */
  lemma {:induction false} LengthsRun(s: Saved, want: seq<int>, rest: seq<bool>)
    requires Ready(s) && s.core.at.Coding2? && FullRow(want, s.core.nInUse + 2) && s.core.i < |want|
             && s.core.row == want[..s.core.i]
    requires s.core.curr == if s.core.i == 0 then want[0] else want[s.core.i - 1]
    ensures var t := With(s, TableDone(s.core, want));
            Sane(t) && Ready(Settle(t)) && Run(s, TableFrom(want, s.core.i) + rest) == Run(Settle(t), rest)
    decreases |want| - s.core.i
  {
    hide Run, Ready, Sane, Settle, DeltaBits, TableFrom;
    var k := s.core.i;
    TableStep(want, k);
    var after := TableFrom(want, k + 1);
    Assoc(DeltaBits(s.core.curr, want[k]), after, rest);
    DeltaRun(s, want[k], after + rest);
    var c := s.core.(curr := want[k], row := s.core.row + [want[k]], i := k + 1);
    assert c.row == want[..k + 1];
    if k + 1 < |want| {
      var t := With(s, c);
      assert LengthDone(s.core.(curr := want[k])) == c;
      SettleLength(t);
      LengthsRun(t, want, rest);
    } else {
      TableStep(want, k + 1);
      assert after + rest == rest && c.row == want;
    }
  }

  lemma SettleLength(s: Saved)
    requires Sane(s) && (s.core.at.Coding2? || s.core.at.Coding1?)
    ensures Settle(s) == s && Ready(s)
  {
    hide SaneCore;
  }

  lemma TableRun(s: Saved, want: seq<int>, rest: seq<bool>)
    requires Ready(s) && s.core.at.Coding1? && FullRow(want, s.core.nInUse + 2)
    ensures 0 < |want|
    ensures var t := With(s, TableDone(s.core, want));
            Sane(t) && Ready(Settle(t)) && Run(s, TableBits(want, |want|) + rest) == Run(Settle(t), rest)
  {
    hide Run, Ready, Sane, Settle, TableFrom, TableBits, BitsOf;
    TableStart(want);
    Assoc(BitsOf(want[0], 5), TableFrom(want, 0), rest);
    FirstLength(s, want[0], TableFrom(want, 0) + rest);
    var t := With(s, s.core.(curr := want[0], i := 0, row := [], at := Coding2));
    assert t.core.row == want[..0];
    LengthsRun(t, want, rest);
  }

  ghost predicate FullRows(lens: seq<seq<int>>, n: nat) {
    forall t :: 0 <= t < |lens| ==> FullRow(lens[t], n) && 0 < |lens[t]| && lens[t][0] >= 0
  }

  /** The rest of the tables: up to where they are all there. */
  lemma {:induction false} TablesRun(s: Saved, lens: seq<seq<int>>, rest: seq<bool>) returns (t: Saved)
    requires Ready(s) && s.core.at.Coding1? && FullRows(lens, s.core.nInUse + 2) && |lens| == s.core.nGroups
    requires |s.core.lens| < |lens| && s.core.lens == lens[..|s.core.lens|]
    ensures t == With(s, s.core.(row := t.core.row, curr := t.core.curr, i := t.core.i, lens := lens, at := MakeTables))
    ensures Sane(t) && Ready(Settle(t)) && Run(s, TablesFrom(lens, |s.core.lens|) + rest) == Run(Settle(t), rest)
    decreases |lens| - |s.core.lens|
  {
    hide Run, Ready, Sane, Settle, TablesFrom, TableBits, FullRow;
    var k := |s.core.lens|;
    var want := lens[k];
    TablesStep(lens, k);
    var after := TablesFrom(lens, k + 1);
    Assoc(TableBits(want, |want|), after, rest);
    TableRun(s, want, after + rest);
    assert s.core.lens + [want] == lens[..k + 1];
    var u := With(s, TableDone(s.core, want));
    if k + 1 < |lens| {
      SettleLength(u);
      t := TablesRun(u, lens, rest);
    } else {
      TablesStep(lens, k + 1);
      assert after + rest == rest && lens[..k + 1] == lens;
      t := u;
    }
  }
}
