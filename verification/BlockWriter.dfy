/** Writing a block's body: pointer, mapping table, selectors, code lengths, codes. */
module BlockWriter {
  import opened Bits
  import opened BitStream
  import opened HuffmanForest
  import opened HuffmanCodes
  import opened BlockFormat
  import MTF = MoveToFront

  method PutBit(w: Writer, bit: bool)
    requires w.Valid()
    modifies w
    ensures w.Valid() && w.Written() == old(w.Written()) + [bit]
  {
    OneBit(bit);
    w.Put(1, if bit then 1 else 0);
  }

  lemma OneBit(bit: bool)
    ensures BitsOf(if bit then 1 else 0, 1) == [bit] && Pow2(1) == 2
  {
    var v: nat := if bit then 1 else 0;
    assert BitsOf(v / 2, 0) == [];
  }

  // ---- mapping table ----

  method SendRow(w: Writer, inUse: array<bool>, i: int)
    requires w.Valid() && inUse.Length == 256 && 0 <= i < 16 && w as object != inUse
    modifies w
    ensures w.Valid() && w.Written() == old(w.Written()) + inUse[16 * i..16 * i + 16]
  {
    hide BytesBits, BitsOf, Buffered;
    ghost var w0 := w.Written();
    for j := 0 to 16
      invariant w.Valid() && w.Written() == w0 + inUse[16 * i..16 * i + j]
    {
      PutBit(w, inUse[i * 16 + j]);
      assert inUse[16 * i..16 * i + j + 1] == inUse[16 * i..16 * i + j] + [inUse[16 * i + j]];
    }
  }

  method FindRows(inUse: array<bool>) returns (inUse16: seq<bool>)
    requires inUse.Length == 256
    ensures inUse16 == RowsBits(inUse[..], 16)
  {
    hide RowUsed;
    inUse16 := [];
    for i := 0 to 16
      invariant inUse16 == RowsBits(inUse[..], i)
    {
      var any := RowAny(inUse, i);
      inUse16 := inUse16 + [any];
    }
  }

  method SendRows(w: Writer, inUse16: seq<bool>)
    requires w.Valid() && |inUse16| == 16
    modifies w
    ensures w.Valid() && w.Written() == old(w.Written()) + inUse16
  {
    hide BytesBits, BitsOf, Buffered;
    ghost var w0 := w.Written();
    for i := 0 to 16
      invariant w.Valid() && w.Written() == w0 + inUse16[..i]
    {
      PutBit(w, inUse16[i]);
      assert inUse16[..i + 1] == inUse16[..i] + [inUse16[i]];
    }
    assert inUse16[..16] == inUse16;
  }

  method SendMap(w: Writer, inUse: array<bool>)
    requires w.Valid() && inUse.Length == 256 && w as object != inUse
    modifies w
    ensures w.Valid() && w.Written() == old(w.Written()) + RowsBits(inUse[..], 16) + CellsBits(inUse[..], 16)
  {
    hide CellsBits, RowUsed, BytesBits, BitsOf, Buffered;
    ghost var used := inUse[..];
    var inUse16 := FindRows(inUse);
    SendRows(w, inUse16);
    ghost var w1 := w.Written();
    CellsNone(used);
    for i := 0 to 16
      invariant w.Valid() && w.Written() == w1 + CellsBits(used, i)
    {
      CellsNext(used, i);
      if inUse16[i] {
        SendRow(w, inUse, i);
      }
    }
  }

  lemma CellsNone(used: seq<bool>)
    requires |used| == 256
    ensures CellsBits(used, 0) == []
  {
  }

  lemma CellsNext(used: seq<bool>, i: nat)
    requires |used| == 256 && i < 16
    ensures CellsBits(used, i + 1) == CellsBits(used, i) + (if RowUsed(used, i) then used[16 * i..16 * i + 16] else [])
  {
  }

  method RowAny(inUse: array<bool>, i: int) returns (any: bool)
    requires inUse.Length == 256 && 0 <= i < 16
    ensures any == RowUsed(inUse[..], i)
  {
    hide RowSome;
    RowSomeNone(inUse[..], i);
    any := false;
    for j := 0 to 16
      invariant any == RowSome(inUse[..], i, j)
    {
      RowSomeNext(inUse[..], i, j);
      if inUse[i * 16 + j] { any := true; }
    }
  }

  lemma RowSomeNone(used: seq<bool>, i: int)
    requires |used| == 256 && 0 <= i < 16
    ensures !RowSome(used, i, 0)
  {
  }

  lemma RowSomeNext(used: seq<bool>, i: int, j: int)
    requires |used| == 256 && 0 <= i < 16 && 0 <= j < 16
    ensures RowSome(used, i, j + 1) <==> RowSome(used, i, j) || used[i * 16 + j]
  {
  }

  // ---- selectors ----

  /** Position of ll_i in the list, which then has it in front. */
  method SelectorPosition(pos: array<Byte>, ll_i: Byte, ghost n: nat) returns (j: nat)
    requires 0 < n <= pos.Length && ll_i in pos[..n]
    modifies pos
    ensures j == MTF.IndexOf(old(pos[..n]), ll_i)
    ensures pos[..n] == MTF.Front(old(pos[..n]), j)
  {
    ghost var y0 := pos[..n];
    ghost var at := MTF.IndexOf(y0, ll_i);
    j := 0;
    var tmp := pos[j];
    while ll_i != tmp
      invariant 0 <= j <= at && tmp == y0[j]
      invariant forall k :: 1 <= k <= j ==> pos[k] == y0[k - 1]
      invariant forall k :: j < k < n ==> pos[k] == y0[k]
      decreases at - j
    {
      j := j + 1;
      var tmp2 := tmp;
      tmp := pos[j];
      pos[j] := tmp2;
    }
    assert j == at;
    pos[0] := tmp;
    assert pos[..n] == MTF.Front(y0, j);
  }

  method SelectorPositions(selectors: seq<Byte>, nGroups: nat) returns (mtf: seq<nat>)
    requires MTF.Encodable(nGroups, selectors) && nGroups <= 6
    ensures |mtf| == |selectors| && forall i :: 0 <= i < |mtf| ==> mtf[i] == SelectorMtf(nGroups, selectors, i)
  {
    hide MTF.Front, MTF.Listing, SelectorList;
    var pos := new Byte[6];
    for i := 0 to nGroups
      invariant forall k :: 0 <= k < i ==> pos[k] == k
    {
      pos[i] := i;
    }
    mtf := [];
    assert selectors[..0] == [];
    ListStart(nGroups);
    assert pos[..nGroups] == MTF.Identity(nGroups);
    for i := 0 to |selectors|
      invariant MTF.Encodable(nGroups, selectors[..i]) && pos[..nGroups] == SelectorList(nGroups, selectors[..i])
      invariant |mtf| == i && forall k :: 0 <= k < i ==> mtf[k] == SelectorMtf(nGroups, selectors, k)
    {
      SelectorNext(nGroups, selectors, i);
      ghost var l := SelectorList(nGroups, selectors[..i]);
      assert l[SelectorMtf(nGroups, selectors, i)] in l;
      var j := SelectorPosition(pos, selectors[i], nGroups);
      mtf := mtf + [j];
    }
  }

  lemma ListStart(n: nat)
    requires 0 < n <= 256
    ensures SelectorList(n, []) == MTF.Identity(n)
  {
  }

  method SendUnary(w: Writer, n: nat)
    requires w.Valid()
    modifies w
    ensures w.Valid() && w.Written() == old(w.Written()) + Unary(n)
  {
    hide BytesBits, BitsOf, Buffered;
    ghost var w1 := w.Written();
    for j := 0 to n
      invariant w.Valid() && w.Written() == w1 + seq(j, _ => true)
    {
      PutBit(w, true);
      assert seq(j + 1, _ => true) == seq(j, _ => true) + [true];
    }
    PutBit(w, false);
    assert w.Written() == w1 + Unary(n);
  }

  method SendSelectors(w: Writer, selectors: seq<Byte>, nGroups: nat)
    requires w.Valid() && MTF.Encodable(nGroups, selectors) && nGroups <= 6 && |selectors| < Pow2(15)
    modifies w
    ensures w.Valid()
    ensures w.Written() == old(w.Written()) + BitsOf(nGroups, 3) + BitsOf(|selectors|, 15)
            + SelectorsBits(nGroups, selectors, |selectors|)
  {
    assert Pow2(3) == 8;
    hide SelectorMtf, SelectorsBits, BitsOf, Unary, BytesBits, Buffered, Pow2;
    w.Put(3, nGroups);
    w.Put(15, |selectors|);
    SendPositions(w, selectors, nGroups);
  }

  method SendPositions(w: Writer, selectors: seq<Byte>, nGroups: nat)
    requires w.Valid() && MTF.Encodable(nGroups, selectors) && nGroups <= 6
    modifies w
    ensures w.Valid() && w.Written() == old(w.Written()) + SelectorsBits(nGroups, selectors, |selectors|)
  {
    hide SelectorMtf, SelectorsBits, BitsOf, Unary, BytesBits, Buffered, Pow2;
    var mtf := SelectorPositions(selectors, nGroups);
    ghost var w0 := w.Written();
    SelectorsNone(nGroups, selectors);
    for i := 0 to |selectors|
      invariant w.Valid() && w.Written() == w0 + SelectorsBits(nGroups, selectors, i)
    {
      SendUnary(w, mtf[i]);
      SelectorsNext(nGroups, selectors, i);
    }
  }

  lemma SelectorsNone(n: nat, sels: seq<Byte>)
    requires MTF.Encodable(n, sels)
    ensures SelectorsBits(n, sels, 0) == []
  {
  }

  lemma SelectorsNext(n: nat, sels: seq<Byte>, k: nat)
    requires MTF.Encodable(n, sels) && k < |sels|
    ensures SelectorsBits(n, sels, k + 1) == SelectorsBits(n, sels, k) + Unary(SelectorMtf(n, sels, k))
  {
  }

  // ---- code lengths ----

  /** One step up (10) or down (11). */
  method SendStep(w: Writer, up: bool, curr: int, next: int, ghost goal: seq<bool>)
    requires w.Valid() && (if up then curr < next else curr > next) && w.Written() + DeltaBits(curr, next) == goal
    modifies w
    ensures w.Valid() && w.Written() + DeltaBits(if up then curr + 1 else curr - 1, next) == goal
  {
    TwoBits();
    hide BytesBits, BitsOf, Buffered;
    ghost var w1 := w.Written();
    w.Put(2, if up then 2 else 3);
    StepAssoc(w1, [true, !up], DeltaBits(if up then curr + 1 else curr - 1, next));
  }

  lemma StepAssoc(a: seq<bool>, b: seq<bool>, c: seq<bool>)
    ensures a + (b + c) == (a + b) + c
  {
  }

  method SendDelta(w: Writer, curr0: int, next: int)
    requires w.Valid()
    modifies w
    ensures w.Valid() && w.Written() == old(w.Written()) + DeltaBits(curr0, next)
  {
    hide BytesBits, BitsOf, Buffered;
    var curr := curr0;
    ghost var goal := w.Written() + DeltaBits(curr, next);
    while curr < next
      invariant w.Valid() && w.Written() + DeltaBits(curr, next) == goal
    {
      SendStep(w, true, curr, next, goal);
      curr := curr + 1;
    }
    while curr > next
      invariant curr >= next && w.Valid() && w.Written() + DeltaBits(curr, next) == goal
    {
      SendStep(w, false, curr, next, goal);
      curr := curr - 1;
    }
    PutBit(w, false);
  }

  lemma TwoBits()
    ensures BitsOf(2, 2) == [true, false] && BitsOf(3, 2) == [true, true] && Pow2(2) == 4
  {
    assert BitsOf(0, 0) == [];
    assert BitsOf(1, 1) == [true];
  }

  method SendTable(w: Writer, lens: seq<int>)
    requires w.Valid() && |lens| > 0 && forall i :: 0 <= i < |lens| ==> 1 <= lens[i] <= LONGEST
    modifies w
    ensures w.Valid() && w.Written() == old(w.Written()) + TableBits(lens, |lens|)
  {
    hide BitsOf, DeltaBits, TableBits, BytesBits, Buffered;
    Pow2Constants();
    ghost var w0 := w.Written();
    var curr := lens[0];
    w.Put(5, curr);
    TableNone(lens);
    for i := 0 to |lens|
      invariant w.Valid() && w.Written() == w0 + TableBits(lens, i)
      invariant curr == if i == 0 then lens[0] else lens[i - 1]
    {
      ghost var w1 := w.Written();
      SendDelta(w, curr, lens[i]);
      TableNext(lens, i);
      assert w1 + DeltaBits(curr, lens[i]) == w0 + (TableBits(lens, i) + DeltaBits(curr, lens[i]));
      curr := lens[i];
    }
  }

  lemma TableNone(lens: seq<int>)
    requires 0 < |lens| && lens[0] >= 0
    ensures TableBits(lens, 0) == BitsOf(lens[0], 5)
  {
  }

  lemma TableNext(lens: seq<int>, i: nat)
    requires i < |lens| && lens[0] >= 0
    ensures TableBits(lens, i + 1) == TableBits(lens, i) + DeltaBits(if i == 0 then lens[0] else lens[i - 1], lens[i])
  {
  }

  method SendTables(w: Writer, lens: seq<seq<int>>, ghost alphaSize: nat)
    requires w.Valid() && forall t :: 0 <= t < |lens| ==> Usable(lens[t], alphaSize)
    modifies w
    ensures forall t :: 0 <= t < |lens| ==> 0 < |lens[t]| && lens[t][0] >= 0
    ensures w.Valid() && w.Written() == old(w.Written()) + TablesBits(lens, |lens|)
  {
    hide TableBits, KraftSum, BytesBits, BitsOf, Buffered;
    ghost var w0 := w.Written();
    for t := 0 to |lens|
      invariant w.Valid() && w.Written() == w0 + TablesBits(lens, t)
    {
      ghost var w1 := w.Written();
      assert Usable(lens[t], alphaSize);
      SendTable(w, lens[t]);
      assert w1 + TableBits(lens[t], |lens[t]|) == w0 + (TablesBits(lens, t) + TableBits(lens[t], |lens[t]|));
    }
  }

  // ---- symbols ----

  lemma DataNone(d: Body)
    requires WellFormed(d)
    ensures DataBits(d, 0) == []
  {
  }

  lemma DataNext(d: Body, k: nat)
    requires WellFormed(d) && k < |d.syms|
    ensures DataBits(d, k + 1) == DataBits(d, k) + SymbolBits(d, k)
  {
  }

  /** The codes assigned to a table. */
  method CodesFor(lens: seq<int>, ghost alphaSize: nat) returns (codes: seq<int>)
    requires Usable(lens, alphaSize)
    ensures |codes| == |lens| && forall i :: 0 <= i < |lens| ==>
                                               codes[i] == Code(lens, i) && 0 <= codes[i] < Pow2(lens[i])
  {
    hide Code, KraftSum, Pow2;
    UsableLengths(lens, alphaSize);
    var length := new Byte[|lens|](i requires 0 <= i < |lens| => lens[i]);
    assert Ints(length[..|lens|]) == lens;
    var minLen, maxLen := LengthRange(lens);
    var code := new int[|lens|];
    AssignCodes(code, length, minLen, maxLen, |lens|);
    forall i | 0 <= i < |lens| ensures 0 <= Code(lens, i) < Pow2(lens[i]) { CodeFits(lens, i, LONGEST); }
    codes := code[..];
  }

  ghost predicate CodesOf(lens: seq<seq<int>>, codes: seq<seq<int>>, n: nat) {
    && n <= |lens| && n <= |codes|
    && (forall t :: 0 <= t < n ==> |codes[t]| == |lens[t]|)
    && (forall t, i :: 0 <= t < n && 0 <= i < |lens[t]| ==>
                         lens[t][i] >= 0 && codes[t][i] == Code(lens[t], i) && 0 <= codes[t][i] < Pow2(lens[t][i]))
  }

  /** One symbol, under the table of its group. */
  method SendSymbol(w: Writer, lens: seq<int>, codes: seq<int>, sym: int, ghost d: Body, ghost k: nat)
    requires w.Valid() && WellFormed(d) && k < |d.syms| && k / GROUP < |d.selectors|
    requires lens == d.lens[d.selectors[k / GROUP]] && sym == d.syms[k] && 0 <= sym < |lens| == |codes|
             && 1 <= lens[sym] <= LONGEST
    requires codes[sym] == Code(lens, sym) && codes[sym] < Pow2(lens[sym])
    modifies w
    ensures w.Valid() && w.Written() == old(w.Written()) + SymbolBits(d, k)
  {
    hide Code, WellFormed, Pow2, BytesBits, Buffered;
    w.Put(lens[sym], codes[sym]);
  }

  lemma SymbolFacts(d: Body, k: nat)
    requires WellFormed(d) && k < |d.syms|
    ensures 0 <= k / GROUP < |d.selectors| && d.selectors[k / GROUP] < d.nGroups == |d.lens|
    ensures var lens := d.lens[d.selectors[k / GROUP]];
            0 <= d.syms[k] < |lens| && (forall i :: 0 <= i < |lens| ==> 1 <= lens[i] <= LONGEST)
              && Usable(lens, InUse(d.used) + 2)
  {
    GroupInRange(|d.syms|, k);
    var t := d.selectors[k / GROUP];
    assert Usable(d.lens[t], InUse(d.used) + 2);
  }

  /** The symbols in groups of fifty. */
  method SendData(w: Writer, syms: seq<int>, selectors: seq<Byte>, lens: seq<seq<int>>, codes: seq<seq<int>>,
      ghost d: Body)
    requires w.Valid() && WellFormed(d) && syms == d.syms && selectors == d.selectors && lens == d.lens
             && CodesOf(lens, codes, d.nGroups)
    modifies w
    ensures w.Valid() && w.Written() == old(w.Written()) + DataBits(d, |syms|)
  {
    hide WellFormed, DataBits, SymbolBits, CodesOf, BytesBits, BitsOf, Buffered;
    ghost var w0 := w.Written();
    DataNone(d);
    var gs, selCtr := 0, 0;
    while gs < |syms|
      invariant w.Valid() && gs <= |syms| && w.Written() == w0 + DataBits(d, gs)
      invariant gs < |syms| ==> gs == GROUP * selCtr
      invariant selCtr >= 0
    {
      var ge := gs + GROUP - 1;
      if ge >= |syms| { ge := |syms| - 1; }
      ghost var g0 := gs;
      for i := gs to ge + 1
        invariant w.Valid() && w.Written() == w0 + DataBits(d, i)
      {
        SymbolFacts(d, i);
        InGroup(g0, selCtr, i);
        assert selectors[selCtr] < d.nGroups;  // error 3006 cannot happen
        var t := selectors[selCtr];
        CodeRow(lens, codes, d.nGroups, t, syms[i]);
        SendSymbol(w, lens[t], codes[t], syms[i], d, i);
        DataNext(d, i);
      }
      gs := ge + 1;
      selCtr := selCtr + 1;
    }
  }

  lemma InGroup(gs: nat, selCtr: nat, i: nat)
    requires gs == GROUP * selCtr && gs <= i < gs + GROUP
    ensures i / GROUP == selCtr
  {
  }

  lemma CodeRow(lens: seq<seq<int>>, codes: seq<seq<int>>, n: nat, t: int, i: int)
    requires CodesOf(lens, codes, n) && 0 <= t < n && 0 <= i < |lens[t]|
    ensures |codes| > t && |lens| > t && |codes[t]| == |lens[t]| && lens[t][i] >= 0
    ensures codes[t][i] == Code(lens[t], i) && 0 <= codes[t][i] < Pow2(lens[t][i])
  {
  }

  method AllCodes(lens: seq<seq<int>>, ghost alphaSize: nat) returns (codes: seq<seq<int>>)
    requires forall t :: 0 <= t < |lens| ==> Usable(lens[t], alphaSize)
    ensures CodesOf(lens, codes, |lens|)
  {
    hide Code, KraftSum;
    codes := [];
    for t := 0 to |lens|
      invariant |codes| == t && CodesOf(lens, codes, t)
    {
      assert Usable(lens[t], alphaSize);
      ghost var c0 := codes;
      var c := CodesFor(lens[t], alphaSize);
      codes := codes + [c];
      assert forall u :: 0 <= u < t ==> codes[u] == c0[u];
    }
  }

  /** The whole body. */
  method SendBody(w: Writer, origPtr: nat, inUse: array<bool>, nGroups: nat, selectors: seq<Byte>, lens: seq<seq<int>>,
      syms: seq<int>)
    requires w.Valid() && w as object != inUse && WellFormed(Body(origPtr, inUse[..], nGroups, selectors, lens, syms))
    modifies w
    ensures w.Valid() && w.Written() == old(w.Written())
            + BodyBits(Body(origPtr, inUse[..], nGroups, selectors, lens, syms))
  {
    hide BitsOf, CellsBits, SelectorsBits, TablesBits, DataBits, Usable, CodesOf, Pow2, BytesBits, Buffered;
    ghost var d := Body(origPtr, inUse[..], nGroups, selectors, lens, syms);
    ghost var w0 := w.Written();
    SelectorsEncodable(d);
    w.Put(24, origPtr);
    SendMap(w, inUse);
    assert w.Written() == w0 + MapBits(d);
    SendSelectors(w, selectors, nGroups);
    assert w.Written() == w0 + MapBits(d) + SelectorPart(d);
    SendTables(w, lens, InUse(d.used) + 2);
    var codes := AllCodes(lens, InUse(d.used) + 2);
    SendData(w, syms, selectors, lens, codes, d);
    assert w.Written() == w0 + BodyBits(d);
  }
}
