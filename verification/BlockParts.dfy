/** The parts of a block's body as what is still to come after a point in them. */
module BlockParts {
  import opened Bits
  import opened BitStream
  import opened HuffmanForest
  import opened HuffmanCodes
  import opened MtfEncode
  import opened BlockFormat
  import MTF = MoveToFront

  lemma PrefixOf(a: seq<bool>, rest: seq<bool>)
    ensures (a + rest)[..|a|] == a && (a + rest)[|a|..] == rest
  {
  }

  lemma Assoc(a: seq<bool>, b: seq<bool>, c: seq<bool>)
    ensures a + b + c == a + (b + c)
  {
  }

  // ---- mapping table ----

  /** The cells of the rows from i on. */
  ghost function CellsFrom(used: seq<bool>, i: nat): (s: seq<bool>)
    requires |used| == 256 && i <= 16
    decreases 16 - i
  {
    if i == 16 then [] else (if RowUsed(used, i) then used[16 * i..16 * i + 16] else []) + CellsFrom(used, i + 1)
  }

  lemma {:induction false} CellsJoin(used: seq<bool>, i: nat)
    requires |used| == 256 && i <= 16
    ensures CellsBits(used, 16) == CellsBits(used, i) + CellsFrom(used, i)
    decreases 16 - i
  {
    if i < 16 {
      CellsJoin(used, i + 1);
      var row := if RowUsed(used, i) then used[16 * i..16 * i + 16] else [];
      assert CellsBits(used, i + 1) == CellsBits(used, i) + row;
      Assoc(CellsBits(used, i), row, CellsFrom(used, i + 1));
    }
  }

  lemma EmptyRow(used: seq<bool>, i: int)
    requires |used| == 256 && 0 <= i < 16 && !RowUsed(used, i)
    ensures forall k :: 16 * i <= k < 16 * i + 16 ==> !used[k]
  {
  }

  lemma CellsStep(used: seq<bool>, i: nat)
    requires |used| == 256 && i < 16
    ensures CellsFrom(used, i) == (if RowUsed(used, i) then used[16 * i..16 * i + 16] else []) + CellsFrom(used, i + 1)
  {
  }

  lemma CellsZero(used: seq<bool>)
    requires |used| == 256
    ensures CellsBits(used, 16) == CellsFrom(used, 0)
  {
    CellsJoin(used, 0);
    assert [] + CellsFrom(used, 0) == CellsFrom(used, 0);
  }

  lemma CellsDone(used: seq<bool>)
    requires |used| == 256
    ensures CellsFrom(used, 16) == []
  {
  }

  // ---- selectors ----

  ghost function SelectorsFrom(n: nat, sels: seq<Byte>, k: nat): (s: seq<bool>)
    requires MTF.Encodable(n, sels) && k <= |sels|
    decreases |sels| - k
  {
    if k == |sels| then [] else Unary(SelectorMtf(n, sels, k)) + SelectorsFrom(n, sels, k + 1)
  }

  lemma {:induction false} SelectorsJoin(n: nat, sels: seq<Byte>, k: nat)
    requires MTF.Encodable(n, sels) && k <= |sels|
    ensures SelectorsBits(n, sels, |sels|) == SelectorsBits(n, sels, k) + SelectorsFrom(n, sels, k)
    decreases |sels| - k
  {
    hide SelectorMtf, Unary, MTF.Encodable;
    if k < |sels| {
      SelectorsJoin(n, sels, k + 1);
      Assoc(SelectorsBits(n, sels, k), Unary(SelectorMtf(n, sels, k)), SelectorsFrom(n, sels, k + 1));
    }
  }

  lemma SelectorsStart(n: nat, sels: seq<Byte>)
    requires MTF.Encodable(n, sels)
    ensures SelectorsBits(n, sels, |sels|) == SelectorsFrom(n, sels, 0)
  {
    SelectorsJoin(n, sels, 0);
    assert [] + SelectorsFrom(n, sels, 0) == SelectorsFrom(n, sels, 0);
  }

  lemma SelectorsStep(n: nat, sels: seq<Byte>, k: nat)
    requires MTF.Encodable(n, sels) && k <= |sels|
    ensures k < |sels| ==> SelectorsFrom(n, sels, k) == Unary(SelectorMtf(n, sels, k)) + SelectorsFrom(n, sels, k + 1)
    ensures k == |sels| ==> SelectorsFrom(n, sels, k) == []
  {
  }

  // ---- code lengths ----

  ghost function TableFrom(lens: seq<int>, k: nat): (s: seq<bool>)
    requires 0 < |lens| && k <= |lens|
    decreases |lens| - k
  {
    if k == |lens| then [] else DeltaBits(if k == 0 then lens[0] else lens[k - 1], lens[k]) + TableFrom(lens, k + 1)
  }

  lemma {:induction false} TableJoin(lens: seq<int>, k: nat)
    requires 0 < |lens| && k <= |lens| && lens[0] >= 0
    ensures TableBits(lens, |lens|) == TableBits(lens, k) + TableFrom(lens, k)
    decreases |lens| - k
  {
    if k < |lens| {
      TableJoin(lens, k + 1);
      Assoc(TableBits(lens, k), DeltaBits(if k == 0 then lens[0] else lens[k - 1], lens[k]), TableFrom(lens, k + 1));
    }
  }

  lemma TableStart(lens: seq<int>)
    requires 0 < |lens| && lens[0] >= 0
    ensures TableBits(lens, |lens|) == BitsOf(lens[0], 5) + TableFrom(lens, 0)
  {
    TableJoin(lens, 0);
  }

  lemma TableStep(lens: seq<int>, k: nat)
    requires 0 < |lens| && k <= |lens|
    ensures k < |lens| ==>
              TableFrom(lens, k) == DeltaBits(if k == 0 then lens[0] else lens[k - 1], lens[k]) + TableFrom(lens, k + 1)
    ensures k == |lens| ==> TableFrom(lens, k) == []
  {
  }

  ghost predicate AllUsable(lens: seq<seq<int>>, alphaSize: nat) {
    forall t :: 0 <= t < |lens| ==> Usable(lens[t], alphaSize)
  }

  lemma UsableFirst(lens: seq<seq<int>>, alphaSize: nat)
    requires AllUsable(lens, alphaSize)
    ensures forall i :: 0 <= i < |lens| ==> 0 < |lens[i]| == alphaSize && lens[i][0] >= 0
  {
    forall i | 0 <= i < |lens| ensures 0 < |lens[i]| == alphaSize && lens[i][0] >= 0 {
      assert Usable(lens[i], alphaSize);
    }
  }

  ghost function TablesFrom(lens: seq<seq<int>>, t: nat): (s: seq<bool>)
    requires t <= |lens| && forall i :: 0 <= i < |lens| ==> 0 < |lens[i]| && lens[i][0] >= 0
    decreases |lens| - t
  {
    if t == |lens| then [] else TableBits(lens[t], |lens[t]|) + TablesFrom(lens, t + 1)
  }

  lemma {:induction false} TablesJoin(lens: seq<seq<int>>, t: nat)
    requires t <= |lens| && forall i :: 0 <= i < |lens| ==> 0 < |lens[i]| && lens[i][0] >= 0
    ensures TablesBits(lens, |lens|) == TablesBits(lens, t) + TablesFrom(lens, t)
    decreases |lens| - t
  {
    if t < |lens| {
      TablesJoin(lens, t + 1);
      Assoc(TablesBits(lens, t), TableBits(lens[t], |lens[t]|), TablesFrom(lens, t + 1));
    }
  }

  lemma TablesStart(lens: seq<seq<int>>)
    requires forall i :: 0 <= i < |lens| ==> 0 < |lens[i]| && lens[i][0] >= 0
    ensures TablesBits(lens, |lens|) == TablesFrom(lens, 0)
  {
    TablesJoin(lens, 0);
    assert [] + TablesFrom(lens, 0) == TablesFrom(lens, 0);
  }

  lemma TablesStep(lens: seq<seq<int>>, t: nat)
    requires t <= |lens| && forall i :: 0 <= i < |lens| ==> 0 < |lens[i]| && lens[i][0] >= 0
    ensures t < |lens| ==> TablesFrom(lens, t) == TableBits(lens[t], |lens[t]|) + TablesFrom(lens, t + 1)
    ensures t == |lens| ==> TablesFrom(lens, t) == []
  {
  }

  // ---- symbols ----

  ghost function DataFrom(d: Body, k: nat): (s: seq<bool>)
    requires WellFormed(d) && k <= |d.syms|
    decreases |d.syms| - k
  {
    if k == |d.syms| then [] else SymbolBits(d, k) + DataFrom(d, k + 1)
  }

  lemma DataMore(d: Body, k: nat)
    requires WellFormed(d) && k < |d.syms|
    ensures DataBits(d, k + 1) == DataBits(d, k) + SymbolBits(d, k)
  {
    hide WellFormed, SymbolBits;
  }

  lemma DataStep(d: Body, k: nat)
    requires WellFormed(d) && k <= |d.syms|
    ensures k < |d.syms| ==> DataFrom(d, k) == SymbolBits(d, k) + DataFrom(d, k + 1)
    ensures k == |d.syms| ==> DataFrom(d, k) == []
  {
    hide WellFormed, SymbolBits;
  }

  lemma {:induction false} DataJoin(d: Body, k: nat)
    requires WellFormed(d) && k <= |d.syms|
    ensures DataBits(d, |d.syms|) == DataBits(d, k) + DataFrom(d, k)
    decreases |d.syms| - k
  {
    hide WellFormed, SymbolBits;
    if k < |d.syms| {
      DataJoin(d, k + 1);
      DataMore(d, k);
      DataStep(d, k);
      hide DataBits, DataFrom;
      Assoc(DataBits(d, k), SymbolBits(d, k), DataFrom(d, k + 1));
    }
  }

  lemma DataStart(d: Body)
    requires WellFormed(d)
    ensures DataBits(d, |d.syms|) == DataFrom(d, 0)
  {
    DataJoin(d, 0);
    assert [] + DataFrom(d, 0) == DataFrom(d, 0);
  }

  lemma BodyFacts(d: Body)
    requires WellFormed(d)
    ensures |d.used| == 256 && 2 <= d.nGroups <= 6 && |d.lens| == d.nGroups && AllUsable(d.lens, InUse(d.used) + 2)
            && d.origPtr < Pow2(24)
    ensures MTF.Encodable(d.nGroups, d.selectors) && 0 < |d.selectors| < Pow2(15)
  {
  }

  lemma BodySplit(d: Body, rest: seq<bool>)
    requires WellFormed(d)
    ensures BodyBits(d) + rest ==
            BitsOf(d.origPtr, 24) + (RowsBits(d.used, 16) + CellsBits(d.used, 16)
                                     + (SelectorPart(d) + (TablePart(d) + (DataBits(d, |d.syms|) + rest))))
  {
    BodyFacts(d);
    hide WellFormed, BitsOf, CellsBits, SelectorPart, TablePart, DataBits;
    var a, m, s, t, x := BitsOf(d.origPtr, 24), RowsBits(d.used, 16) + CellsBits(d.used, 16), SelectorPart(d),
      TablePart(d), DataBits(d, |d.syms|);
    Assoc(BitsOf(d.origPtr, 24), RowsBits(d.used, 16), CellsBits(d.used, 16));
    assert BodyBits(d) == a + m + s + t + x;
    FiveParts(a, m, s, t, x, rest);
  }

  lemma FiveParts(a: seq<bool>, m: seq<bool>, s: seq<bool>, t: seq<bool>, x: seq<bool>, rest: seq<bool>)
    ensures a + m + s + t + x + rest == a + (m + (s + (t + (x + rest))))
  {
    Assoc(a + m + s + t, x, rest);
    Assoc(a + m + s, t, x + rest);
    Assoc(a + m, s, t + (x + rest));
    Assoc(a, m, s + (t + (x + rest)));
  }
}
