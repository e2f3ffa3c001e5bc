/** The decompressor on the bits the compressor writes: the start of a block and its mapping table. */
module DecompressHeader {
  import opened Bits
  import opened BitStream
  import opened BwtTheory
  import opened MtfEncode
  import opened BlockFormat
  import opened BlockParts
  import opened DecompressMachine
  import opened DecompressSteps
  import opened DecompressRun
  import MTF = MoveToFront

  /** A state that may be run. */
  ghost predicate Ready(s: Saved) { Sane(s) && Asks(s.core) }

  /** The number asked for comes next. */
  lemma TakeRun(s: Saved, n: nat, v: nat, rest: seq<bool>)
    requires Ready(s) && !Terminal(s.core.at) && Want(s.core) == n && v < Pow2(n)
    ensures Ready(Step(s, v)) && Run(s, BitsOf(v, n) + rest) == Run(Step(s, v), rest)
  {
    AsksSome(s.core);
    hide Step, Sane, BitsOf, ValueOf, Pow2;
    StepSane(s, v);
    PrefixOf(BitsOf(v, n), rest);
    ValueBits(v, n);
  }

  /** The bit asked for comes next. */
  lemma BitRun(s: Saved, b: bool, rest: seq<bool>)
    requires Ready(s) && !Terminal(s.core.at) && Want(s.core) == 1
    ensures var v := if b then 1 else 0; Ready(Step(s, v)) && Run(s, [b] + rest) == Run(Step(s, v), rest)
  {
    var v: nat := if b then 1 else 0;
    assert BitsOf(v, 1) == [b] by { assert BitsOf(v / 2, 0) == []; }
    assert Pow2(1) == 2;
    hide Step, Sane, BitsOf, Run, Pow2;
    TakeRun(s, 1, v, rest);
  }

  lemma Stopped(s: Saved, bits: seq<bool>)
    requires Ready(s) && Terminal(s.core.at)
    ensures Run(s, bits) == (s, bits)
  {
    hide Sane;
  }

  // ---- the block's header ----

  lemma MarkStep(s: Saved, k: nat, rest: seq<bool>)
    requires Ready(s) && s.core.at == BlkHdr(k) && 1 <= k <= 6
    ensures var c := s.core;
            var t := With(s, if k < 6 then c.(at := BlkHdr(k + 1))
                                           else c.(currBlockNo := c.currBlockNo + 1, storedBlockCRC := 0,
                                                   at := BCrc(1)));
            Ready(t) && Run(s, BitsOf(BLOCK_MARK[k - 1], 8) + rest) == Run(t, rest)
  {
    hide Run, BitsOf, Sane, Row;
    Pow2Constants();
    TakeRun(s, 8, BLOCK_MARK[k - 1], rest);
  }

  lemma CrcStep(s: Saved, k: nat, v: Byte, rest: seq<bool>)
    requires Ready(s) && s.core.at == BCrc(k) && 1 <= k <= 4
    ensures var t := With(s, s.core.(storedBlockCRC := ShiftIn8(s.core.storedBlockCRC, v), at := if k < 4
                                     then BCrc(k + 1) else RandBit));
            Ready(t) && Run(s, BitsOf(v, 8) + rest) == Run(t, rest)
  {
    hide Run, BitsOf, Sane, Row, ShiftIn8;
    Pow2Constants();
    TakeRun(s, 8, v, rest);
  }

  lemma RandStep(s: Saved, rest: seq<bool>)
    requires Ready(s) && s.core.at.RandBit?
    ensures var t := With(s, s.core.(randomised := false, origPtr := 0, at := OrigPtr(1)));
            Ready(t) && Run(s, [false] + rest) == Run(t, rest)
  {
    hide Run, Sane, Row;
    BitRun(s, false, rest);
  }

  lemma PtrStep(s: Saved, k: nat, v: Byte, rest: seq<bool>)
    requires Ready(s) && s.core.at == OrigPtr(k) && 1 <= k < 3
    ensures var t := With(s, s.core.(origPtr := s.core.origPtr * 256 + v, at := OrigPtr(k + 1)));
            Ready(t) && Run(s, BitsOf(v, 8) + rest) == Run(t, rest)
  {
    hide Run, BitsOf, Sane, Row;
    Pow2Constants();
    TakeRun(s, 8, v, rest);
  }

  /** The core when the pointer has been read: refused if it is beyond any block of this size. */
  ghost function Pointed(c: Core, u: nat): Core {
    if u > 10 + 100000 * c.blockSize100k then c.(origPtr := u, at := BadData)
                                              else c.(origPtr := u, i := 0, inUse16 := [], at := Mapping1)
  }

  lemma PtrEnd(s: Saved, v: Byte, rest: seq<bool>)
    requires Ready(s) && s.core.at == OrigPtr(3)
    ensures var t := With(s, Pointed(s.core, s.core.origPtr * 256 + v));
            Ready(t) && Run(s, BitsOf(v, 8) + rest) == Run(t, rest)
  {
    hide Run, BitsOf, Sane, Row;
    Pow2Constants();
    TakeRun(s, 8, v, rest);
  }

  /** The marker, byte by byte. */
  ghost function MarkBits(): seq<bool> {
    BitsOf(BLOCK_MARK[0], 8) + (BitsOf(BLOCK_MARK[1], 8) + (BitsOf(BLOCK_MARK[2], 8)
    + (BitsOf(BLOCK_MARK[3], 8) + (BitsOf(BLOCK_MARK[4], 8) + BitsOf(BLOCK_MARK[5], 8)))))
  }

  ghost function CrcBits(u: Word): seq<bool> {
    BitsOf(u / 0x100_0000, 8) + (BitsOf(u / 0x1_0000 % 256, 8) + (BitsOf(u / 256 % 256, 8) + BitsOf(u % 256, 8)))
  }

  lemma SixParts(a: seq<bool>, b: seq<bool>, c: seq<bool>, d: seq<bool>, e: seq<bool>, f: seq<bool>, rest: seq<bool>)
    ensures a + (b + (c + (d + (e + f)))) + rest == a + (b + (c + (d + (e + (f + rest)))))
  {
    Assoc(a, b + (c + (d + (e + f))), rest);
    Assoc(b, c + (d + (e + f)), rest);
    Assoc(c, d + (e + f), rest);
    Assoc(d, e + f, rest);
    Assoc(e, f, rest);
  }

  lemma FirstMarks(s: Saved, rest: seq<bool>)
    requires Ready(s) && s.core.at == BlkHdr(1)
    ensures var t := With(s, s.core.(at := BlkHdr(4)));
            Ready(t) && Run(s, BitsOf(BLOCK_MARK[0], 8)
                            + (BitsOf(BLOCK_MARK[1], 8) + (BitsOf(BLOCK_MARK[2], 8) + rest))) == Run(t, rest)
  {
    hide Run, Ready, BitsOf;
    var b, c := BitsOf(BLOCK_MARK[1], 8), BitsOf(BLOCK_MARK[2], 8);
    MarkStep(s, 1, b + (c + rest));
    MarkStep(With(s, s.core.(at := BlkHdr(2))), 2, c + rest);
    MarkStep(With(s, s.core.(at := BlkHdr(3))), 3, rest);
  }

  lemma LastMarks(s: Saved, rest: seq<bool>)
    requires Ready(s) && s.core.at == BlkHdr(4)
    ensures var t := With(s, s.core.(currBlockNo := s.core.currBlockNo + 1, storedBlockCRC := 0, at := BCrc(1)));
            Ready(t) && Run(s, BitsOf(BLOCK_MARK[3], 8)
                            + (BitsOf(BLOCK_MARK[4], 8) + (BitsOf(BLOCK_MARK[5], 8) + rest))) == Run(t, rest)
  {
    hide Run, Ready, BitsOf;
    var e, f := BitsOf(BLOCK_MARK[4], 8), BitsOf(BLOCK_MARK[5], 8);
    MarkStep(s, 4, e + (f + rest));
    MarkStep(With(s, s.core.(at := BlkHdr(5))), 5, f + rest);
    MarkStep(With(s, s.core.(at := BlkHdr(6))), 6, rest);
  }

  lemma MarkRun(s: Saved, rest: seq<bool>)
    requires Ready(s) && s.core.at == BlkHdr(1)
    ensures var t := With(s, s.core.(currBlockNo := s.core.currBlockNo + 1, storedBlockCRC := 0, at := BCrc(1)));
            Ready(t) && Run(s, MarkBits() + rest) == Run(t, rest)
  {
    hide Run, Ready, BitsOf;
    var a, b, c, d, e, f := BitsOf(BLOCK_MARK[0], 8), BitsOf(BLOCK_MARK[1], 8), BitsOf(BLOCK_MARK[2], 8),
      BitsOf(BLOCK_MARK[3], 8), BitsOf(BLOCK_MARK[4], 8), BitsOf(BLOCK_MARK[5], 8);
    SixParts(a, b, c, d, e, f, rest);
    FirstMarks(s, d + (e + (f + rest)));
    LastMarks(With(s, s.core.(at := BlkHdr(4))), rest);
  }

  lemma ShiftIs(u: Word)
    ensures ShiftIn8(u / 256, u % 256) == u
  {
    var q, r := u / 256, u % 256;
    assert q * 256 + r == u;
  }

  lemma Quarters(u: nat)
    ensures u / 0x1_0000 == u / 256 / 256 && u / 0x100_0000 == u / 256 / 256 / 256
  {
  }

  lemma CrcJoined(u: Word)
    ensures ShiftIn8(0, u / 0x100_0000) == u / 0x100_0000
    ensures ShiftIn8(u / 0x100_0000, u / 0x1_0000 % 256) == u / 0x1_0000
    ensures ShiftIn8(u / 0x1_0000, u / 256 % 256) == u / 256 && ShiftIn8(u / 256, u % 256) == u
  {
    hide ShiftIn8;
    Quarters(u);
    ShiftIs(u);
    ShiftIs(u / 256);
    ShiftIs(u / 256 / 256);
    ShiftIs(u / 256 / 256 / 256);
  }

  lemma FourParts(a: seq<bool>, b: seq<bool>, c: seq<bool>, d: seq<bool>, rest: seq<bool>)
    ensures a + (b + (c + d)) + rest == a + (b + (c + (d + rest)))
  {
    Assoc(a, b + (c + d), rest);
    Assoc(b, c + d, rest);
    Assoc(c, d, rest);
  }

  lemma CrcFirst(s: Saved, a: Byte, b: Byte, rest: seq<bool>)
    requires Ready(s) && s.core.at == BCrc(1) && s.core.storedBlockCRC == 0
    ensures var t := With(s, s.core.(storedBlockCRC := ShiftIn8(ShiftIn8(0, a), b), at := BCrc(3)));
            Ready(t) && Run(s, BitsOf(a, 8) + (BitsOf(b, 8) + rest)) == Run(t, rest)
  {
    hide Run, Ready, BitsOf, ShiftIn8;
    CrcStep(s, 1, a, BitsOf(b, 8) + rest);
    CrcStep(With(s, s.core.(storedBlockCRC := ShiftIn8(0, a), at := BCrc(2))), 2, b, rest);
  }

  lemma CrcLast(s: Saved, x: Word, c: Byte, d: Byte, rest: seq<bool>)
    requires Ready(s) && s.core.at == BCrc(3) && s.core.storedBlockCRC == x
    ensures var t := With(s, s.core.(storedBlockCRC := ShiftIn8(ShiftIn8(x, c), d), at := RandBit));
            Ready(t) && Run(s, BitsOf(c, 8) + (BitsOf(d, 8) + rest)) == Run(t, rest)
  {
    hide Run, Ready, BitsOf, ShiftIn8;
    CrcStep(s, 3, c, BitsOf(d, 8) + rest);
    CrcStep(With(s, s.core.(storedBlockCRC := ShiftIn8(x, c), at := BCrc(4))), 4, d, rest);
  }

  lemma CrcRun(s: Saved, u: Word, rest: seq<bool>)
    requires Ready(s) && s.core.at == BCrc(1) && s.core.storedBlockCRC == 0
    ensures var t := With(s, s.core.(storedBlockCRC := u, at := RandBit));
            Ready(t) && Run(s, CrcBits(u) + rest) == Run(t, rest)
  {
    hide Run, Ready, BitsOf, ShiftIn8;
    CrcJoined(u);
    var a, b, c, d := u / 0x100_0000, u / 0x1_0000 % 256, u / 256 % 256, u % 256;
    FourParts(BitsOf(a, 8), BitsOf(b, 8), BitsOf(c, 8), BitsOf(d, 8), rest);
    CrcFirst(s, a, b, BitsOf(c, 8) + (BitsOf(d, 8) + rest));
    CrcLast(With(s, s.core.(storedBlockCRC := u / 0x1_0000, at := BCrc(3))), u / 0x1_0000, c, d, rest);
  }

  lemma PtrParts(u: nat)
    requires u < 0x100_0000
    ensures u / 0x1_0000 < 256 && u / 0x1_0000 * 256 + u / 256 % 256 == u / 256 <= u && u / 256 * 256 + u % 256 == u
  {
    Quarters(u);
    var q := u / 256;
    assert q / 256 * 256 + q % 256 == q;
  }

  lemma PtrRun(s: Saved, u: nat, rest: seq<bool>)
    requires Ready(s) && s.core.at == OrigPtr(1) && s.core.origPtr == 0 && u < 0x100_0000
    ensures var t := With(s, Pointed(s.core, u));
            Ready(t) && Run(s, BitsOf(u / 0x1_0000, 8) + (BitsOf(u / 256 % 256, 8) + (BitsOf(u % 256, 8) + rest)))
              == Run(t, rest)
  {
    hide Run, Ready, BitsOf;
    PtrParts(u);
    PtrRun3(s, u, u / 256, u / 0x1_0000, u / 256 % 256, u % 256, rest);
  }

  lemma PointedForgets(c: Core, x: nat, l: Label, u: nat)
    ensures Pointed(c.(origPtr := x, at := l), u) == Pointed(c, u)
  {
  }

  lemma PtrRun2(s: Saved, u: nat, u1: nat, b: Byte, c: Byte, rest: seq<bool>)
    requires Ready(s) && s.core.at == OrigPtr(2) && s.core.origPtr * 256 + b == u1 && u1 * 256 + c == u
    ensures var t := With(s, Pointed(s.core, u));
            Ready(t) && Run(s, BitsOf(b, 8) + (BitsOf(c, 8) + rest)) == Run(t, rest)
  {
    hide Run, Ready, BitsOf, Pointed;
    PtrStep(s, 2, b, BitsOf(c, 8) + rest);
    PtrEnd(With(s, s.core.(origPtr := u1, at := OrigPtr(3))), c, rest);
    PointedForgets(s.core, u1, OrigPtr(3), u);
  }

  lemma PtrRun3(s: Saved, u: nat, u1: nat, a: Byte, b: Byte, c: Byte, rest: seq<bool>)
    requires Ready(s) && s.core.at == OrigPtr(1) && s.core.origPtr == 0 && a * 256 + b == u1 && u1 * 256 + c == u
    ensures var t := With(s, Pointed(s.core, u));
            Ready(t) && Run(s, BitsOf(a, 8) + (BitsOf(b, 8) + (BitsOf(c, 8) + rest))) == Run(t, rest)
  {
    hide Run, Ready, BitsOf, Pointed;
    PtrStep(s, 1, a, BitsOf(b, 8) + (BitsOf(c, 8) + rest));
    PtrRun2(With(s, s.core.(origPtr := a, at := OrigPtr(2))), u, u1, b, c, rest);
    PointedForgets(s.core, a, OrigPtr(2), u);
  }

  // ---- the mapping table ----

  /** The first n flags, and no others. */
  ghost function Masked(used: seq<bool>, n: nat): (s: seq<bool>)
    requires |used| == 256
    ensures |s| == 256 && forall k :: 0 <= k < 256 ==> s[k] == (k < n && used[k])
  {
    seq(256, k requires 0 <= k < 256 => k < n && used[k])
  }

  /** Where the machine is when it has the rows before i. */
  ghost function AtRow(c: Core, used: seq<bool>, i: nat, j: nat): (r: Core)
    requires |used| == 256 && i <= 16 && |c.inUse16| == 16
  {
    SeekRow(c.(inUse := Masked(used, 16 * i), j := j), i)
  }

  lemma {:induction false} SeekForgets(c: Core, i: nat, x: nat, l: Label)
    requires i <= 16 && |c.inUse16| == 16
    ensures SeekRow(c.(i := x, at := l), i) == SeekRow(c, i)
    decreases 16 - i
  {
    if i < 16 && !c.inUse16[i] { SeekForgets(c, i + 1, x, l); }
  }

  /** A bit of a row. */
  lemma CellStep(s: Saved, used: seq<bool>, i: nat, j: nat, rest: seq<bool>)
    requires |used| == 256 && i < 16 && j < 16
    requires Ready(s) && s.core.at.Mapping2? && s.core.i == i && s.core.j == j
             && s.core.inUse == Masked(used, 16 * i + j)
    ensures var c := s.core.(inUse := Masked(used, 16 * i + j + 1));
            var t := Step(s, if used[16 * i + j] then 1 else 0);
            Ready(t) && Run(s, [used[16 * i + j]] + rest) == Run(t, rest)
            && (j < 15 ==> t == With(s, c.(j := j + 1)))
            && (j == 15 ==>
                  |c.inUse16| == 16 && Sane(With(s, SeekRow(c, i + 1))) && t == Settle(With(s, SeekRow(c, i + 1))))
  {
    var v: nat := if used[16 * i + j] then 1 else 0;
    AfterCore(s, v);
    CellCore(s.core, used, i, j);
    hide Run, Row, Always, SeekRow, Masked;
    BitRun(s, used[16 * i + j], rest);
    hide Sane, Ready, SaneCore;
    if j < 15 { SettleNothing(With(s, s.core.(inUse := Masked(used, 16 * i + j + 1), j := j + 1))); }
  }

  lemma SettleNothing(s: Saved)
    requires Sane(s) && Asks(s.core)
    ensures Settle(s) == s
  {
    hide Sane;
  }

  lemma CellCore(c: Core, used: seq<bool>, i: nat, j: nat)
    requires |used| == 256 && i < 16 && j < 16
    requires SaneCore(c) && c.at.Mapping2? && c.i == i && c.j == j && c.inUse == Masked(used, 16 * i + j)
    ensures var c' := c.(inUse := Masked(used, 16 * i + j + 1));
            |c.inUse16| == 16 && StepCore(c, if used[16 * i + j] then 1 else 0) == if j < 15
              then c'.(j := j + 1) else SeekRow(c', i + 1)
  {
    hide Row, SeekRow;
    var v: nat := if used[16 * i + j] then 1 else 0;
    assert (if v == 1 then c.inUse[c.i * 16 + c.j := true] else c.inUse) == Masked(used, 16 * i + j + 1);
  }

  /** The bits lead to work that needs no more, and on from there. */
  ghost predicate Leads(s: Saved, bits: seq<bool>, u: Saved, rest: seq<bool>) {
    Ready(s) && Sane(u) && Ready(Settle(u)) && Run(s, bits) == Run(Settle(u), rest)
  }

  lemma LeadsOn(s: Saved, bits: seq<bool>, t: Saved, bits': seq<bool>, u: Saved, rest: seq<bool>)
    requires Ready(s) && Ready(t) && Run(s, bits) == Run(t, bits') && Leads(t, bits', u, rest)
    ensures Leads(s, bits, u, rest)
  {
    hide Ready, Run, Sane, Settle;
  }

  /** At bit j of row i, with all the bits before. */
  ghost predicate InRow(s: Saved, used: seq<bool>, i: nat, j: nat) {
    && |used| == 256 && i < 16 && j < 16 && |s.core.inUse16| == 16
    && Ready(s) && s.core.at.Mapping2? && s.core.i == i && s.core.j == j && s.core.inUse == Masked(used, 16 * i + j)
  }

  /** What is left of a row. */
  lemma {:induction false} RowRun(s: Saved, used: seq<bool>, i: nat, j: nat, rest: seq<bool>)
    requires InRow(s, used, i, j)
    ensures Leads(s, used[16 * i + j..16 * i + 16] + rest, With(s, AtRow(s.core, used, i + 1, 15)), rest)
    decreases 16 - j
  {
    hide Ready, Run, Sane, Settle, SeekRow, AtRow, Leads, Masked;
    CutOne(used, 16 * i + j, 16 * i + 16, rest);
    if j < 15 {
      var tail := used[16 * i + j + 1..16 * i + 16] + rest;
      var t := RowMore(s, used, i, j, tail);
      RowRun(t, used, i, j + 1, rest);
      LeadsOn(s, [used[16 * i + j]] + tail, t, tail, With(t, AtRow(t.core, used, i + 1, 15)), rest);
    } else {
      RowLast(s, used, i, rest);
    }
  }

  lemma RowMore(s: Saved, used: seq<bool>, i: nat, j: nat, rest: seq<bool>) returns (t: Saved)
    requires InRow(s, used, i, j) && j < 15
    ensures Ready(s) && InRow(t, used, i, j + 1) && Ready(t) && Run(s, [used[16 * i + j]] + rest) == Run(t, rest)
    ensures With(t, AtRow(t.core, used, i + 1, 15)) == With(s, AtRow(s.core, used, i + 1, 15))
  {
    hide Run, Ready, Sane, Settle, Step, SeekRow, Masked, AtRow;
    CellStep(s, used, i, j, rest);
    t := With(s, s.core.(inUse := Masked(used, 16 * i + j + 1), j := j + 1));
    RowSame(s.core, used, i, Masked(used, 16 * i + j + 1), j + 1);
  }

  lemma RowLast(s: Saved, used: seq<bool>, i: nat, rest: seq<bool>)
    requires InRow(s, used, i, 15)
    ensures Leads(s, [used[16 * i + 15]] + rest, With(s, AtRow(s.core, used, i + 1, 15)), rest)
  {
    hide Run, Ready, Sane, Settle, Step, SeekRow, Masked, AtRow;
    CellStep(s, used, i, 15, rest);
    RowOver(s.core, used, i);
  }

  lemma CutOne(s: seq<bool>, lo: nat, hi: nat, rest: seq<bool>)
    requires lo < hi <= |s|
    ensures s[lo..hi] + rest == [s[lo]] + (s[lo + 1..hi] + rest) && (lo + 1 == hi ==> s[lo + 1..hi] + rest == rest)
  {
  }

  lemma RowSame(c: Core, used: seq<bool>, i: nat, m: seq<bool>, j: nat)
    requires |used| == 256 && i < 16 && |c.inUse16| == 16
    ensures AtRow(c.(inUse := m, j := j), used, i + 1, 15) == AtRow(c, used, i + 1, 15)
  {
    hide SeekRow, Masked;
  }

  lemma RowOver(c: Core, used: seq<bool>, i: nat)
    requires |used| == 256 && i < 16 && |c.inUse16| == 16 && c.j == 15
    ensures AtRow(c, used, i + 1, 15) == SeekRow(c.(inUse := Masked(used, 16 * i + 15 + 1)), i + 1)
  {
    hide SeekRow, Masked;
    assert 16 * i + 15 + 1 == 16 * (i + 1);
  }

  lemma RowStart(c: Core, used: seq<bool>, i: nat, j: nat)
    requires |used| == 256 && i < 16 && c.inUse16 == RowsBits(used, 16)
    ensures RowUsed(used, i) ==>
              AtRow(c, used, i, j) == c.(inUse := Masked(used, 16 * i), i := i, j := 0, at := Mapping2)
    ensures !RowUsed(used, i) ==> AtRow(c, used, i, j) == AtRow(c, used, i + 1, j)
  {
    hide SeekRow;
    if !RowUsed(used, i) {
      EmptyRow(used, i);
      assert Masked(used, 16 * i) == Masked(used, 16 * (i + 1));
    }
    hide RowUsed;
    SeekOne(c.(inUse := Masked(used, 16 * i), j := j), i);
  }

  lemma SeekOne(c: Core, i: nat)
    requires |c.inUse16| == 16 && i < 16
    ensures SeekRow(c, i) == if c.inUse16[i] then c.(i := i, j := 0, at := Mapping2) else SeekRow(c, i + 1)
  {
  }

  lemma RowEnd(c: Core, used: seq<bool>, j: nat)
    requires |used| == 256 && |c.inUse16| == 16
    ensures AtRow(c, used, 16, j) == c.(inUse := used, i := 16, j := j, at := MakeMaps)
  {
    assert Masked(used, 256) == used;
  }

  /** The rows from i on. */
  lemma {:induction false} CellsRun(s: Saved, used: seq<bool>, i: nat, j: nat, rest: seq<bool>) returns (j': nat)
    requires |used| == 256 && i <= 16 && s.core.inUse16 == RowsBits(used, 16)
    requires var t := With(s, AtRow(s.core, used, i, j)); Sane(t) && Ready(Settle(t))
    ensures var t := With(s, s.core.(inUse := used, i := 16, j := j', at := MakeMaps));
            Sane(t) && Ready(Settle(t)) && Run(Settle(With(s, AtRow(s.core, used, i, j))), CellsFrom(used, i) + rest)
              == Run(Settle(t), rest)
    decreases 16 - i
  {
    hide Run, Ready, Sane, Settle, SeekRow, CellsFrom, RowUsed;
    if i == 16 {
      CellsDone(used);
      RowEnd(s.core, used, j);
      assert CellsFrom(used, i) + rest == rest;
      return j;
    }
    RowStart(s.core, used, i, j);
    CellsStep(used, i);
    if RowUsed(used, i) {
      var t := With(s, AtRow(s.core, used, i, j));
      AtMapping(t);
      Assoc(used[16 * i..16 * i + 16], CellsFrom(used, i + 1), rest);
      RowLeads(t, used, i, CellsFrom(used, i + 1) + rest);
      SeekForgets(s.core.(inUse := Masked(used, 16 * (i + 1)), j := 15), i + 1, i, Mapping2);
      assert t.core.(inUse := Masked(used, 16 * (i + 1)), j := 15)
        == s.core.(inUse := Masked(used, 16 * (i + 1)), j := 15).(i := i, at := Mapping2);
      j' := CellsRun(s, used, i + 1, 15, rest);
    } else {
      assert [] + CellsFrom(used, i + 1) == CellsFrom(used, i + 1);
      j' := CellsRun(s, used, i + 1, j, rest);
    }
  }

  lemma RowLeads(t: Saved, used: seq<bool>, i: nat, rest: seq<bool>)
    requires InRow(t, used, i, 0)
    ensures var u := With(t, AtRow(t.core, used, i + 1, 15));
            Ready(t) && Sane(u) && Ready(Settle(u)) && Run(t, used[16 * i..16 * i + 16] + rest) == Run(Settle(u), rest)
  {
    hide Run, Ready, Sane, Settle, SeekRow, Masked, AtRow;
    RowRun(t, used, i, 0, rest);
  }

  lemma AtMapping(s: Saved)
    requires Sane(s) && s.core.at.Mapping2?
    ensures Settle(s) == s && Ready(s)
  {
    hide SaneCore;
  }

  /** The core after one of the sixteen bits for the rows. */
  ghost function Flagged(c: Core, b: bool): Core
    requires |c.inUse16| < 16
  {
    var c' := c.(inUse16 := c.inUse16 + [b]);
    if |c'.inUse16| < 16 then c' else SeekRow(c'.(inUse := NoneUsed()), 0)
  }

  lemma RowFlag(s: Saved, b: bool, rest: seq<bool>)
    requires Ready(s) && s.core.at.Mapping1?
    ensures |s.core.inUse16| < 16 && Sane(With(s, Flagged(s.core, b))) && Ready(Settle(With(s, Flagged(s.core, b))))
    ensures Run(s, [b] + rest) == Run(Settle(With(s, Flagged(s.core, b))), rest)
  {
    AfterCore(s, if b then 1 else 0);
    hide Run, SeekRow, Row, NoneUsed, Always, Settle;
    BitRun(s, b, rest);
    assert |s.core.inUse16| < 16;
  }

  lemma SettleMapping(s: Saved)
    requires Sane(s) && s.core.at.Mapping1?
    ensures Settle(s) == s
  {
    hide SaneCore;
  }

  /** With some of the sixteen bits for the rows. */
  ghost predicate InFlags(s: Saved, used: seq<bool>) {
    && |used| == 256 && |s.core.inUse16| < 16 && Ready(s) && s.core.at.Mapping1?
    && s.core.inUse16 == RowsBits(used, 16)[..|s.core.inUse16|]
  }

  /** Where the machine is when all of them have come. */
  ghost function AllFlagged(s: Saved, used: seq<bool>): Saved
    requires |used| == 256
  {
    With(s, AtRow(s.core.(inUse16 := RowsBits(used, 16)), used, 0, s.core.j))
  }

  /** What is left of the sixteen bits for the rows. */
  lemma {:induction false} RowsRun(s: Saved, used: seq<bool>, rest: seq<bool>)
    requires InFlags(s, used)
    ensures Leads(s, RowsBits(used, 16)[|s.core.inUse16|..16] + rest, AllFlagged(s, used), rest)
    decreases 16 - |s.core.inUse16|
  {
    hide Run, Ready, SeekRow, RowsBits, Sane, Settle, AtRow, Leads, AllFlagged;
    var all, n := RowsBits(used, 16), |s.core.inUse16|;
    assert |all| == 16;
    CutOne(all, n, 16, rest);
    if n < 15 {
      var tail := all[n + 1..16] + rest;
      var t := FlagMore(s, used, tail);
      RowsRun(t, used, rest);
      LeadsOn(s, [all[n]] + tail, t, tail, AllFlagged(t, used), rest);
    } else {
      FlagLast(s, used, rest);
    }
  }

  lemma FlagMore(s: Saved, used: seq<bool>, rest: seq<bool>) returns (t: Saved)
    requires InFlags(s, used) && |s.core.inUse16| < 15
    ensures InFlags(t, used) && |t.core.inUse16| == |s.core.inUse16| + 1 && AllFlagged(t, used) == AllFlagged(s, used)
    ensures Ready(s) && Ready(t) && Run(s, [RowsBits(used, 16)[|s.core.inUse16|]] + rest) == Run(t, rest)
  {
    hide Run, Ready, SeekRow, RowsBits, Sane, Settle, AtRow;
    var all, n := RowsBits(used, 16), |s.core.inUse16|;
    RowFlag(s, all[n], rest);
    t := With(s, s.core.(inUse16 := s.core.inUse16 + [all[n]]));
    SettleMapping(t);
    assert t.core.inUse16 == all[..n + 1];
    assert t.core.(inUse16 := all) == s.core.(inUse16 := all);
  }

  lemma FlagLast(s: Saved, used: seq<bool>, rest: seq<bool>)
    requires InFlags(s, used) && |s.core.inUse16| == 15
    ensures Leads(s, [RowsBits(used, 16)[15]] + rest, AllFlagged(s, used), rest)
  {
    hide Run, Ready, SeekRow, RowsBits, Sane, Settle, AtRow;
    var all := RowsBits(used, 16);
    RowFlag(s, all[15], rest);
    assert s.core.inUse16 + [all[15]] == all;
    NoRows(s.core, used, all);
  }

  lemma RowsLead(s: Saved, used: seq<bool>, rest: seq<bool>)
    requires Ready(s) && s.core.at.Mapping1? && |used| == 256 && s.core.inUse16 == []
    ensures var t := AllFlagged(s, used);
            Sane(t) && Ready(Settle(t)) && Run(s, RowsBits(used, 16)[0..] + rest) == Run(Settle(t), rest)
  {
    hide Run, Ready, RowsBits, Sane, Settle, AllFlagged;
    var all := RowsBits(used, 16);
    assert all[..0] == [] && all[0..] == all[0..16];
    RowsRun(s, used, rest);
  }

  lemma NoRows(c: Core, used: seq<bool>, all: seq<bool>)
    requires |used| == 256 && |all| == 16
    ensures AtRow(c.(inUse16 := all), used, 0, c.j) == SeekRow(c.(inUse16 := all).(inUse := NoneUsed()), 0)
  {
    hide SeekRow;
    assert NoneUsed() == Masked(used, 0);
    hide Masked, NoneUsed;
  }
}
