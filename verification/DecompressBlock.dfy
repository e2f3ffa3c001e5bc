/** The decompressor on a whole block as the compressor writes it. */
module DecompressBlock {
  import opened Bits
  import opened BitStream
  import opened HuffmanForest
  import opened BwtTheory
  import opened MtfEncode
  import opened BlockFormat
  import opened BlockParts
  import opened DecompressMachine
  import opened DecompressSteps
  import opened DecompressRun
  import opened DecompressHeader
  import opened DecompressTables
  import opened DecompressSymbols
  import opened DecompressData
  import MTF = MoveToFront
  import MtfDecode

  lemma AllFull(d: Body)
    requires BlockFormat.WellFormed(d)
    ensures |d.used| == 256 && FullRows(d.lens, InUse(d.used) + 2)
  {
    forall t | 0 <= t < |d.lens| ensures FullRow(d.lens[t], InUse(d.used) + 2) && 0 < |d.lens[t]| && d.lens[t][0] >= 0 {
      assert Usable(d.lens[t], InUse(d.used) + 2);
    }
  }

  /** All tables made. */
  ghost function Made(s: Saved): Saved
    requires Sane(s) && s.core.at.MakeTables?
  {
    var c := s.core;
    NewRowsSane(c.rows, c.lens, c.nInUse + 2);
    s.(list := MTF.Identity(256), out := [],
       core := c.(rows := NewRows(c.rows, c.lens, |c.lens|), groupNo := -1, groupPos := 0, gSel := 0, es := 0, N := 1,
                  nblock := 0))
  }

  lemma MadeIs(s: Saved)
    requires Sane(s) && s.core.at.MakeTables?
    ensures Always(Made(s).core) && Reading(Made(s).core) && Settle(s) == NeedS(Made(s), 0)
  {
    hide Row, NewRow, NewRows, NeedSymbol;
    NewRowsSane(s.core.rows, s.core.lens, s.core.nInUse + 2);
  }

  lemma MadeTabled(s: Saved, d: Body)
    requires Sane(s) && s.core.at.MakeTables? && BlockFormat.WellFormed(d) && s.core.lens == d.lens
             && s.core.nInUse == InUse(d.used)
    requires s.core.nGroups == d.nGroups && s.core.selector == d.selectors && s.core.nSelectors == |d.selectors|
    ensures Tabled(Made(s).core, d) && Placed(Made(s).core, d, 0)
  {
    var c := s.core;
    NewRowsSane(c.rows, c.lens, c.nInUse + 2);
    hide Row, NewRow, RowFor, FullRow, InUse;
    forall g | 0 <= g < d.nGroups ensures RowFor(Made(s).core.rows[g], d.lens[g]) {
      NewRowFor(c.rows[g], d.lens[g], c.nInUse + 2);
    }
  }

  lemma MadeTracks(s: Saved, d: Body)
    requires Sane(s) && s.core.at.MakeTables? && |d.used| == 256 && MtfDecode.WellFormed(InUse(d.used), d.syms)
    ensures Tracking(Made(s), d, 0, 0)
  {
    hide Row, SaneCore, NewRows, InUse;
    var n := InUse(d.used);
    assert d.syms[..0] == [];
    assert MtfDecode.After(n, d.syms, 0) == MTF.Start(n);
    assert MTF.Identity(256)[..n] == MTF.Identity(n);
  }

  /** Making the tables, the machine comes to the first symbol. */
  lemma TablesMade(s: Saved, d: Body)
    requires Sane(s) && s.core.at.MakeTables? && BlockFormat.WellFormed(d) && s.core.lens == d.lens
             && s.core.nInUse == InUse(d.used)
    requires s.core.nGroups == d.nGroups && s.core.selector == d.selectors && s.core.nSelectors == |d.selectors|
    requires MtfDecode.WellFormed(InUse(d.used), d.syms)
    ensures AtSymbol(Settle(s), d, 0, 0) && Tracking(Settle(s), d, 0, 0) && Kept(s, Settle(s))
  {
    SomeSymbols(d);
    hide Sane, Tabled, Placed, Tracking, BlockFormat.WellFormed, InUse, Always, Reading, NewRows, NeedS, AtSymbol,
      Settle;
    SettleSane(s);
    MadeIs(s);
    MadeTabled(s, d);
    MadeTracks(s, d);
    NextAsked(Made(s), d, 0, 0);
  }

  lemma SomeSymbols(d: Body)
    requires BlockFormat.WellFormed(d)
    ensures 0 < |d.syms|
  {
  }

  /** The body's parts before its symbols. */
  lemma PrefaceRun(s: Saved, d: Body, rest: seq<bool>) returns (t: Saved)
    requires Ready(s) && s.core.at.Mapping1? && s.core.inUse16 == [] && BlockFormat.WellFormed(d)
    ensures |s.maps| == 256 && |d.used| == 256
    ensures Sane(t) && t.core.at.MakeTables? && t.core.lens == d.lens && t.core.nInUse == InUse(d.used)
            && t.core.nGroups == d.nGroups
    ensures t.core.selector == d.selectors && t.core.nSelectors == |d.selectors| && t.maps == NewMaps(s.maps, d.used)
    ensures SameHead(s.core, t.core) && Ready(Settle(t))
    ensures Run(s, RowsBits(d.used, 16) + CellsBits(d.used, 16) + (SelectorPart(d) + (TablePart(d) + rest)))
            == Run(Settle(t), rest)
  {
    BodyFacts(d);
    AllFull(d);
    SomeUsed(d);
    hide Run, Ready, Sane, RowsBits, CellsBits, BitsOf, SelectorsBits, TablesBits, Settle, Positions, NewMaps,
      BlockFormat.WellFormed, InUse,
      FullRows, Pow2, TablesFrom;
    var u1 := MapRun(s, d.used, SelectorPart(d) + (TablePart(d) + rest));
    SelectorsRun(u1, d.nGroups, d.selectors, TablePart(d) + rest);
    var u2 := With(u1, u1.core.(nGroups := d.nGroups, nSelectors := |d.selectors|, i := |d.selectors|, j := 0,
                                   selectorMtf := Positions(d.nGroups, d.selectors), selector := d.selectors,
                                     lens := [], at := Coding1));
    TablesPart(d);
    t := TablesRun(u2, d.lens, rest);
  }

  lemma SomeUsed(d: Body)
    requires BlockFormat.WellFormed(d)
    ensures InUse(d.used) > 0
  {
  }

  lemma TablesPart(d: Body)
    requires BlockFormat.WellFormed(d)
    ensures (forall i :: 0 <= i < |d.lens| ==> 0 < |d.lens[i]| && d.lens[i][0] >= 0) && |d.lens| == d.nGroups
    ensures TablePart(d) == TablesFrom(d.lens, 0)
  {
    BodyFacts(d);
    UsableFirst(d.lens, InUse(d.used) + 2);
    TablesStart(d.lens);
  }

  /** The three bytes of the pointer. */
  lemma PtrBits(u: nat)
    requires u < 0x100_0000
    ensures BitsOf(u, 24) == BitsOf(u / 0x1_0000, 8) + BitsOf(u / 256 % 256, 8) + BitsOf(u % 256, 8)
  {
    hide BitsOf, Pow2, High, Low;
    Pow2Constants();
    BitsSplit(u, 16, 8);
    PartsAre(u, 8, u / 256, u % 256);
    BitsSplit(u / 256, 8, 8);
    PartsAre(u / 256, 8, u / 256 / 256, u / 256 % 256);
    assert u / 256 / 256 == u / 0x1_0000;
  }

  /** A block's body up to its symbols. */
  lemma BodyRun(s: Saved, d: Body, rest: seq<bool>) returns (t: Saved)
    requires Ready(s) && s.core.at == OrigPtr(1) && s.core.origPtr == 0 && BlockFormat.WellFormed(d)
    requires d.origPtr <= 10 + 100000 * s.core.blockSize100k
    ensures |s.maps| == |d.used| == 256
    ensures AtSymbol(t, d, 0, 0) && Tracking(t, d, 0, 0) && t.maps == NewMaps(s.maps, d.used)
            && SameHead(s.core.(origPtr := d.origPtr), t.core)
    ensures Ready(t) && Run(s, BodyBits(d) + rest) == Run(t, DataFrom(d, 0) + rest)
  {
    BodyFacts(d);
    Pow2Constants();
    hide Run, Ready, Sane, RowsBits, CellsBits, BitsOf, SelectorPart, TablePart, DataBits, DataFrom, Settle, NewMaps,
      BlockFormat.WellFormed, InUse,
      MtfDecode.WellFormed, AtSymbol, Tracking, Pow2;
    SymbolsFormed(d);
    var data := DataFrom(d, 0) + rest;
    var body := RowsBits(d.used, 16) + CellsBits(d.used, 16) + (SelectorPart(d) + (TablePart(d) + data));
    DataStart(d);
    BodySplit(d, rest);
    PtrSplit(d.origPtr, body);
    PtrRun(s, d.origPtr, body);
    var s1 := With(s, s.core.(origPtr := d.origPtr, i := 0, inUse16 := [], at := Mapping1));
    var u := PrefaceRun(s1, d, data);
    TablesMade(u, d);
    t := Settle(u);
  }

  lemma PtrSplit(u: nat, rest: seq<bool>)
    requires u < 0x100_0000
    ensures BitsOf(u, 24) + rest == BitsOf(u / 0x1_0000, 8) + (BitsOf(u / 256 % 256, 8) + (BitsOf(u % 256, 8) + rest))
  {
    hide BitsOf;
    PtrBits(u);
    Assoc(BitsOf(u / 0x1_0000, 8) + BitsOf(u / 256 % 256, 8), BitsOf(u % 256, 8), rest);
    Assoc(BitsOf(u / 0x1_0000, 8), BitsOf(u / 256 % 256, 8), BitsOf(u % 256, 8) + rest);
  }

  /** A pointer that is beyond any block of this size. */
  lemma PointerRefused(s: Saved, d: Body, rest: seq<bool>)
    requires Ready(s) && s.core.at == OrigPtr(1) && s.core.origPtr == 0 && BlockFormat.WellFormed(d)
    requires d.origPtr > 10 + 100000 * s.core.blockSize100k
    ensures Run(s, BodyBits(d) + rest).0.core.at == BadData
  {
    BodyFacts(d);
    Pow2Constants();
    hide Run, Ready, Sane, RowsBits, CellsBits, BitsOf, SelectorPart, TablePart, DataBits, BlockFormat.WellFormed, Pow2;
    var body := RowsBits(d.used, 16) + CellsBits(d.used, 16)
      + (SelectorPart(d) + (TablePart(d) + (DataBits(d, |d.syms|) + rest)));
    BodySplit(d, rest);
    PtrSplit(d.origPtr, body);
    PtrRun(s, d.origPtr, body);
    Stopped(With(s, Pointed(s.core, d.origPtr)), body);
  }

  lemma SymbolsFormed(d: Body)
    requires BlockFormat.WellFormed(d)
    ensures |d.used| == 256 && MtfDecode.WellFormed(InUse(d.used), d.syms)
  {
    assert d.syms[|d.syms| - 1] == InUse(d.used) + 1;
    var t := d.syms[..|d.syms| - 1];
    forall k | 0 <= k < |t| ensures 0 <= t[k] <= InUse(d.used) {
      assert t[k] == d.syms[k] != InUse(d.used) + 1;
    }
  }

  lemma AcceptableForm(d: Body, room: nat)
    requires Acceptable(d, room)
    ensures |d.used| == 256 && MtfDecode.WellFormed(InUse(d.used), d.syms)
    ensures |MtfDecode.Meaning(InUse(d.used), d.syms)| <= room
  {
  }

  lemma MarkIs()
    ensures BitsOf(MAGIC_HIGH, 32) + BitsOf(MAGIC_LOW, 16) == MarkBits()
  {
    hide BitsOf, High, Low, Pow2;
    FourBytes(MAGIC_HIGH);
    Pow2Constants();
    BitsSplit(MAGIC_LOW, 8, 8);
    PartsAre(MAGIC_LOW, 8, 0x53, 0x59);
    SixJoined(BitsOf(BLOCK_MARK[0], 8), BitsOf(BLOCK_MARK[1], 8), BitsOf(BLOCK_MARK[2], 8),
              BitsOf(BLOCK_MARK[3], 8), BitsOf(BLOCK_MARK[4], 8), BitsOf(BLOCK_MARK[5], 8));
  }

  lemma SixJoined(a: seq<bool>, b: seq<bool>, c: seq<bool>, d: seq<bool>, e: seq<bool>, f: seq<bool>)
    ensures a + b + c + d + (e + f) == a + (b + (c + (d + (e + f))))
  {
  }

  lemma CrcIs(u: Word)
    ensures BitsOf(u, 32) == CrcBits(u)
  {
    hide BitsOf;
    FourBytes(u);
    var a, b, c, d := BitsOf(u / 0x100_0000, 8), BitsOf(u / 0x1_0000 % 256, 8), BitsOf(u / 256 % 256, 8),
      BitsOf(u % 256, 8);
    assert a + b + c + d == a + (b + (c + d));
  }

  lemma BlockSplit(crc: Word, d: Body, rest: seq<bool>)
    requires BlockFormat.WellFormed(d)
    ensures BlockBits(crc, d) + rest == MarkBits() + (CrcBits(crc) + ([false] + (BodyBits(d) + rest)))
  {
    hide BitsOf, BodyBits, MarkBits, CrcBits;
    MarkIs();
    CrcIs(crc);
    var m, l, c, x := BitsOf(MAGIC_HIGH, 32), BitsOf(MAGIC_LOW, 16), BitsOf(crc, 32), BodyBits(d);
    Assoc(m, l + (c + ([false] + x)), rest);
    Assoc(l, c + ([false] + x), rest);
    Assoc(c, [false] + x, rest);
    Assoc([false], x, rest);
    Assoc(m, l, c + ([false] + (x + rest)));
  }

  /** The start of a block, up to its body. */
  lemma StartRun(s: Saved, crc: Word, d: Body, rest: seq<bool>) returns (t: Saved)
    requires Ready(s) && s.core.at == BlkHdr(1) && BlockFormat.WellFormed(d)
    ensures t == With(s, s.core.(currBlockNo := s.core.currBlockNo + 1, storedBlockCRC := crc, randomised := false,
                                 origPtr := 0, at := OrigPtr(1)))
    ensures Ready(t) && Run(s, BlockBits(crc, d) + rest) == Run(t, BodyBits(d) + rest)
  {
    hide Run, Ready, BitsOf, BlockFormat.WellFormed, BodyBits, BlockBits, MarkBits, CrcBits;
    BlockSplit(crc, d, rest);
    MarkRun(s, CrcBits(crc) + ([false] + (BodyBits(d) + rest)));
    var s1 := With(s, s.core.(currBlockNo := s.core.currBlockNo + 1, storedBlockCRC := 0, at := BCrc(1)));
    CrcRun(s1, crc, [false] + (BodyBits(d) + rest));
    var s2 := With(s1, s1.core.(storedBlockCRC := crc, at := RandBit));
    RandStep(s2, BodyBits(d) + rest);
    t := With(s2, s2.core.(randomised := false, origPtr := 0, at := OrigPtr(1)));
  }

  /** A whole block, whatever follows it in the stream: the machine ends where output begins,
      with the column decoded. */
  lemma BlockRun(s: Saved, crc: Word, d: Body, rest: seq<bool>) returns (t: Saved)
    requires Ready(s) && s.core.at == BlkHdr(1) && BlockFormat.WellFormed(d)
             && Acceptable(d, 100000 * s.core.blockSize100k)
    requires d.origPtr < |MtfDecode.Meaning(InUse(d.used), d.syms)|
    ensures |s.maps| == |d.used| == 256
    ensures Ready(t) && Complete(t, d) && t.maps == NewMaps(s.maps, d.used)
    ensures SameHead(s.core.(currBlockNo := s.core.currBlockNo + 1, storedBlockCRC := crc, randomised := false,
                             origPtr := d.origPtr), t.core)
    ensures Run(s, BlockBits(crc, d) + rest) == Run(t, rest)
  {
    hide Run, Ready, Sane, NewMaps, BlockFormat.WellFormed, InUse, Acceptable, Complete, MtfDecode.Meaning, BodyBits,
      BlockBits, AtSymbol, Tracking,
      DataFrom, MtfDecode.WellFormed;
    AcceptableForm(d, 100000 * s.core.blockSize100k);
    var s1 := StartRun(s, crc, d, rest);
    var u := BodyRun(s1, d, rest);
    t := DataRun(u, d, 0, 0, rest);
  }

  /** A block whose column is too long, a run of which is, or whose pointer is not in it, is refused. */
  lemma BlockRefused(s: Saved, crc: Word, d: Body, rest: seq<bool>)
    requires Ready(s) && s.core.at == BlkHdr(1) && BlockFormat.WellFormed(d)
    requires |d.used| == 256 && MtfDecode.WellFormed(InUse(d.used), d.syms)
    requires !Acceptable(d, 100000 * s.core.blockSize100k) || d.origPtr >= |MtfDecode.Meaning(InUse(d.used), d.syms)|
    ensures Run(s, BlockBits(crc, d) + rest).0.core.at == BadData
  {
    hide Run, Ready, Sane, NewMaps, BlockFormat.WellFormed, InUse, Acceptable, Fits, MtfDecode.Meaning, BodyBits,
      BlockBits, AtSymbol, Tracking,
      DataFrom, MtfDecode.WellFormed;
    var s1 := StartRun(s, crc, d, rest);
    if d.origPtr > 10 + 100000 * s.core.blockSize100k {
      PointerRefused(s1, d, rest);
    } else {
      var u := BodyRun(s1, d, rest);
      AllFit(d, 100000 * s.core.blockSize100k);
      SomeSymbols(d);
      if !Acceptable(d, 100000 * s.core.blockSize100k) {
        var j: nat :| j < |d.syms| && !Fits(d, j, 100000 * s.core.blockSize100k);
        DataRefused(u, d, 0, 0, rest, j);
      } else {
        DataRefused(u, d, 0, 0, rest, |d.syms| - 1);
      }
    }
  }
}
