/** The decompressor on a stream's header and trailer, and on bits that come in parts. */
module DecompressFrame {
  import opened Bits
  import opened BitStream
  import opened BlockFormat
  import opened BlockParts
  import opened StreamFormat
  import opened DecompressMachine
  import opened DecompressSteps
  import opened DecompressRun
  import opened DecompressHeader
  import opened DecompressBlock

  // ---- header ----

  lemma MagicStep(s: Saved, k: nat, rest: seq<bool>)
    requires Ready(s) && s.core.at == Magic(k) && 1 <= k <= 3
    ensures var t := With(s, s.core.(at := Magic(k + 1)));
            Ready(t) && Run(s, BitsOf(MAGIC[k - 1], 8) + rest) == Run(t, rest)
  {
    hide Run, BitsOf, Sane, Row;
    Pow2Constants();
    TakeRun(s, 8, MAGIC[k - 1], rest);
  }

  lemma LevelStep(s: Saved, level: nat, rest: seq<bool>)
    requires Ready(s) && s.core.at == Magic(4) && 1 <= level <= 9
    ensures var t := With(s, s.core.(blockSize100k := level, at := BlkHdr(1)));
            Ready(t) && Run(s, BitsOf(0x30 + level, 8) + rest) == Run(t, rest)
  {
    hide Run, BitsOf, Sane, Row;
    Pow2Constants();
    TakeRun(s, 8, 0x30 + level, rest);
  }

  /** The header: the machine comes to the first block. */
  lemma HeaderRun(s: Saved, level: nat, rest: seq<bool>)
    requires Ready(s) && s.core.at == Magic(1) && 1 <= level <= 9
    ensures var t := With(s, s.core.(blockSize100k := level, at := BlkHdr(1)));
            Ready(t) && Run(s, HeaderBits(level) + rest) == Run(t, rest)
  {
    hide Run, Ready, BitsOf;
    var a, b, c, d := BitsOf(0x42, 8), BitsOf(0x5a, 8), BitsOf(0x68, 8), BitsOf(0x30 + level, 8);
    FourParts(a, b, c, d, rest);
    MagicStep(s, 1, b + (c + (d + rest)));
    MagicStep(With(s, s.core.(at := Magic(2))), 2, c + (d + rest));
    MagicStep(With(s, s.core.(at := Magic(3))), 3, d + rest);
    LevelStep(With(s, s.core.(at := Magic(4))), level, rest);
  }

  // ---- trailer ----

  lemma EndStart(s: Saved, rest: seq<bool>)
    requires Ready(s) && s.core.at == BlkHdr(1)
    ensures var t := With(s, s.core.(at := EndHdr(2)));
            Ready(t) && Run(s, BitsOf(END_MARK[0], 8) + rest) == Run(t, rest)
  {
    hide Run, BitsOf, Sane, Row;
    Pow2Constants();
    TakeRun(s, 8, END_MARK[0], rest);
  }

  lemma EndStep(s: Saved, k: nat, rest: seq<bool>)
    requires Ready(s) && s.core.at == EndHdr(k) && 2 <= k <= 6
    ensures var t := With(s, if k < 6 then s.core.(at := EndHdr(k + 1))
                                           else s.core.(storedCombinedCRC := 0, at := CCrc(1)));
            Ready(t) && Run(s, BitsOf(END_MARK[k - 1], 8) + rest) == Run(t, rest)
  {
    hide Run, BitsOf, Sane, Row;
    Pow2Constants();
    TakeRun(s, 8, END_MARK[k - 1], rest);
  }

  lemma SumStep(s: Saved, k: nat, v: Byte, rest: seq<bool>)
    requires Ready(s) && s.core.at == CCrc(k) && 1 <= k <= 4
    ensures var t := With(s, s.core.(storedCombinedCRC := ShiftIn8(s.core.storedCombinedCRC, v), at := if k < 4
                                     then CCrc(k + 1) else Idle));
            Ready(t) && Run(s, BitsOf(v, 8) + rest) == Run(t, rest)
  {
    hide Run, BitsOf, Sane, Row, ShiftIn8;
    Pow2Constants();
    TakeRun(s, 8, v, rest);
  }

  ghost function EndBits(): seq<bool> {
    BitsOf(END_MARK[0], 8) + (BitsOf(END_MARK[1], 8) + (BitsOf(END_MARK[2], 8)
    + (BitsOf(END_MARK[3], 8) + (BitsOf(END_MARK[4], 8) + BitsOf(END_MARK[5], 8)))))
  }

  lemma FirstEnds(s: Saved, rest: seq<bool>)
    requires Ready(s) && s.core.at == BlkHdr(1)
    ensures var t := With(s, s.core.(at := EndHdr(4)));
            Ready(t) && Run(s, BitsOf(END_MARK[0], 8) + (BitsOf(END_MARK[1], 8) + (BitsOf(END_MARK[2], 8) + rest)))
              == Run(t, rest)
  {
    hide Run, Ready, BitsOf;
    var b, c := BitsOf(END_MARK[1], 8), BitsOf(END_MARK[2], 8);
    EndStart(s, b + (c + rest));
    EndStep(With(s, s.core.(at := EndHdr(2))), 2, c + rest);
    EndStep(With(s, s.core.(at := EndHdr(3))), 3, rest);
  }

  lemma LastEnds(s: Saved, rest: seq<bool>)
    requires Ready(s) && s.core.at == EndHdr(4)
    ensures var t := With(s, s.core.(storedCombinedCRC := 0, at := CCrc(1)));
            Ready(t) && Run(s, BitsOf(END_MARK[3], 8) + (BitsOf(END_MARK[4], 8) + (BitsOf(END_MARK[5], 8) + rest)))
              == Run(t, rest)
  {
    hide Run, Ready, BitsOf;
    var e, f := BitsOf(END_MARK[4], 8), BitsOf(END_MARK[5], 8);
    EndStep(s, 4, e + (f + rest));
    EndStep(With(s, s.core.(at := EndHdr(5))), 5, f + rest);
    EndStep(With(s, s.core.(at := EndHdr(6))), 6, rest);
  }

  lemma EndRun(s: Saved, rest: seq<bool>)
    requires Ready(s) && s.core.at == BlkHdr(1)
    ensures var t := With(s, s.core.(storedCombinedCRC := 0, at := CCrc(1)));
            Ready(t) && Run(s, EndBits() + rest) == Run(t, rest)
  {
    hide Run, Ready, BitsOf;
    var a, b, c, d, e, f := BitsOf(END_MARK[0], 8), BitsOf(END_MARK[1], 8), BitsOf(END_MARK[2], 8),
      BitsOf(END_MARK[3], 8), BitsOf(END_MARK[4], 8), BitsOf(END_MARK[5], 8);
    SixParts(a, b, c, d, e, f, rest);
    FirstEnds(s, d + (e + (f + rest)));
    LastEnds(With(s, s.core.(at := EndHdr(4))), rest);
  }

  lemma SumFirst(s: Saved, a: Byte, b: Byte, rest: seq<bool>)
    requires Ready(s) && s.core.at == CCrc(1) && s.core.storedCombinedCRC == 0
    ensures var t := With(s, s.core.(storedCombinedCRC := ShiftIn8(ShiftIn8(0, a), b), at := CCrc(3)));
            Ready(t) && Run(s, BitsOf(a, 8) + (BitsOf(b, 8) + rest)) == Run(t, rest)
  {
    hide Run, Ready, BitsOf, ShiftIn8;
    SumStep(s, 1, a, BitsOf(b, 8) + rest);
    SumStep(With(s, s.core.(storedCombinedCRC := ShiftIn8(0, a), at := CCrc(2))), 2, b, rest);
  }

  lemma SumLast(s: Saved, x: Word, c: Byte, d: Byte, rest: seq<bool>)
    requires Ready(s) && s.core.at == CCrc(3) && s.core.storedCombinedCRC == x
    ensures var t := With(s, s.core.(storedCombinedCRC := ShiftIn8(ShiftIn8(x, c), d), at := Idle));
            Ready(t) && Run(s, BitsOf(c, 8) + (BitsOf(d, 8) + rest)) == Run(t, rest)
  {
    hide Run, Ready, BitsOf, ShiftIn8;
    SumStep(s, 3, c, BitsOf(d, 8) + rest);
    SumStep(With(s, s.core.(storedCombinedCRC := ShiftIn8(x, c), at := CCrc(4))), 4, d, rest);
  }

  lemma SumRun(s: Saved, u: Word, rest: seq<bool>)
    requires Ready(s) && s.core.at == CCrc(1) && s.core.storedCombinedCRC == 0
    ensures var t := With(s, s.core.(storedCombinedCRC := u, at := Idle));
            Ready(t) && Run(s, CrcBits(u) + rest) == Run(t, rest)
  {
    hide Run, Ready, BitsOf, ShiftIn8;
    CrcJoined(u);
    var a, b, c, d := u / 0x100_0000, u / 0x1_0000 % 256, u / 256 % 256, u % 256;
    FourParts(BitsOf(a, 8), BitsOf(b, 8), BitsOf(c, 8), BitsOf(d, 8), rest);
    SumFirst(s, a, b, BitsOf(c, 8) + (BitsOf(d, 8) + rest));
    SumLast(With(s, s.core.(storedCombinedCRC := u / 0x1_0000, at := CCrc(3))), u / 0x1_0000, c, d, rest);
  }

  lemma EndIs()
    ensures BitsOf(END_HIGH, 32) + BitsOf(END_LOW, 16) == EndBits()
  {
    hide BitsOf, High, Low, Pow2;
    FourBytes(END_HIGH);
    Pow2Constants();
    BitsSplit(END_LOW, 8, 8);
    PartsAre(END_LOW, 8, 0x50, 0x90);
    SixJoined(BitsOf(END_MARK[0], 8), BitsOf(END_MARK[1], 8), BitsOf(END_MARK[2], 8),
              BitsOf(END_MARK[3], 8), BitsOf(END_MARK[4], 8), BitsOf(END_MARK[5], 8));
  }

  /** The trailer: the machine ends, with the checksum over all blocks. */
  lemma TrailerRun(s: Saved, u: Word, rest: seq<bool>)
    requires Ready(s) && s.core.at == BlkHdr(1)
    ensures var t := With(s, s.core.(storedCombinedCRC := u, at := Idle));
            Ready(t) && Run(s, TrailerBits(u) + rest) == (t, rest)
  {
    hide Run, Ready, BitsOf, CrcBits, EndBits;
    EndIs();
    CrcIs(u);
    Assoc(BitsOf(END_HIGH, 32), BitsOf(END_LOW, 16) + BitsOf(u, 32), rest);
    Assoc(BitsOf(END_LOW, 16), BitsOf(u, 32), rest);
    Assoc(BitsOf(END_HIGH, 32), BitsOf(END_LOW, 16), BitsOf(u, 32) + rest);
    EndRun(s, CrcBits(u) + rest);
    SumRun(With(s, s.core.(storedCombinedCRC := 0, at := CCrc(1))), u, rest);
    Stopped(With(s, s.core.(storedCombinedCRC := u, at := Idle)), rest);
  }

  // ---- bits in parts ----

  lemma ReadyAsks(s: Saved)
    requires Ready(s)
    ensures Terminal(s.core.at) || 1 <= Want(s.core) <= 24
  {
    if !Terminal(s.core.at) { AsksSome(s.core); }
  }

  /** Running on the first bits and going on with what is left and more is running on all of them. */
  lemma {:induction false} RunParts(s: Saved, a: seq<bool>, b: seq<bool>)
    requires Ready(s)
    ensures var (t, left) := Run(s, a); Run(t, left + b) == Run(s, a + b)
    decreases |a|
  {
    ReadyAsks(s);
    hide Step, Sane, ValueOf;
    if !Terminal(s.core.at) && Want(s.core) <= |a| {
      var n := Want(s.core);
      assert (a + b)[..n] == a[..n] && (a + b)[n..] == a[n..] + b;
      StepSane(s, ValueOf(a[..n]));
      RunParts(Step(s, ValueOf(a[..n])), a[n..], b);
    }
  }
}
