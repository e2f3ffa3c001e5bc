/** The block checksum: a table-driven CRC, high bit first. */
module BlockCrc {
  import opened Bits

  const POLYNOMIAL: Word := 0x04c1_1db7

  /** Division by the polynomial, one bit further. */
  function BitStep(c: Word): Word {
    ShiftedLow(c);
    if High(c, 31) == 1 then Xor(2 * Low(c, 31), POLYNOMIAL) else 2 * Low(c, 31)
  }

  lemma ShiftedLow(c: Word)
    ensures 2 * Low(c, 31) < 0x1_0000_0000 && Xor(2 * Low(c, 31), POLYNOMIAL) < 0x1_0000_0000
    ensures High(c, 31) <= 1 && c == High(c, 31) * 0x8000_0000 + Low(c, 31)
  {
    Pow2Constants();
    hide Xor, Pow2;
    HighLow(c, 31);
    XorBound(2 * Low(c, 31), POLYNOMIAL, 32);
  }

  function BitSteps(c: Word, n: nat): Word
    decreases n
  {
    if n == 0 then c else BitSteps(BitStep(c), n - 1)
  }

  /** Entry i of the table. */
  function TableEntry(i: Byte): Word {
    BitSteps(i * 0x100_0000, 8)
  }

  /** BZ_UPDATE_CRC: one byte at a time by table look-up. */
  function Update(crc: Word, c: Byte): Word {
    UpdateRange(crc, c);
    Xor(256 * Low(crc, 24), TableEntry(Xor(High(crc, 24), c)))
  }

  lemma TopByte(crc: Word)
    ensures High(crc, 24) < 256 && crc == High(crc, 24) * 0x100_0000 + Low(crc, 24) && Low(crc, 24) < 0x100_0000
  {
    Pow2Constants();
    hide Pow2;
    HighLow(crc, 24);
  }

  lemma UpdateRange(crc: Word, c: Byte)
    ensures Xor(High(crc, 24), c) < 256
    ensures Xor(256 * Low(crc, 24), TableEntry(Xor(High(crc, 24), c))) < 0x1_0000_0000
  {
    Pow2Constants();
    hide Xor, Pow2, BitSteps, High, Low;
    TopByte(crc);
    XorBound(High(crc, 24), c, 8);
    XorBound(256 * Low(crc, 24), TableEntry(Xor(High(crc, 24), c)), 32);
  }

  lemma StepLinear(a: Word, b: Word)
    ensures Xor(a, b) < 0x1_0000_0000 && BitStep(Xor(a, b)) == Xor(BitStep(a), BitStep(b))
  {
    XorWord(a, b);
    ShiftedLow(a);
    ShiftedLow(b);
    ShiftedLow(Xor(a, b));
    XorHigh(a, b, 31);
    XorLow(a, b, 31);
    var x, y := 2 * Low(a, 31), 2 * Low(b, 31);
    XorDouble(Low(a, 31), Low(b, 31));
    OneBits(High(a, 31), High(b, 31));
    hide Xor, High, Low;
    XorSwap(x, POLYNOMIAL, y, POLYNOMIAL);
    XorSelf(POLYNOMIAL);
    XorZero(Xor(x, y));
    XorAssoc(x, y, POLYNOMIAL);
    XorAssoc(x, POLYNOMIAL, y);
    XorCommutes(y, POLYNOMIAL);
  }

  lemma OneBits(h: nat, k: nat)
    requires h <= 1 && k <= 1
    ensures Xor(h, k) == if h == k then 0 else 1
  {
    assert Xor(0, 0) == 0;
  }

  lemma {:induction false} StepsLinear(a: Word, b: Word, n: nat)
    ensures Xor(a, b) < 0x1_0000_0000 && BitSteps(Xor(a, b), n) == Xor(BitSteps(a, n), BitSteps(b, n))
    decreases n
  {
    hide BitStep, Xor;
    XorWord(a, b);
    if n > 0 {
      StepLinear(a, b);
      StepsLinear(BitStep(a), BitStep(b), n - 1);
    }
  }

  /** While the high bits are zero, steps only shift. */
  lemma {:induction false} StepsShift(c: Word, n: nat)
    requires c * Pow2(n) < 0x1_0000_0000
    ensures BitSteps(c, n) == c * Pow2(n)
    decreases n
  {
    if n > 0 {
      var p := Pow2(n - 1);
      Doubled(c, p);
      assert Pow2(n) == 2 * p;
      hide BitStep, Pow2;
      assert c * (2 * p) == (2 * c) * p;
      SmallStep(c, p);
      StepsShift(2 * c, n - 1);
    }
  }

  lemma SmallStep(c: Word, p: nat)
    requires p >= 1 && (2 * c) * p < 0x1_0000_0000
    ensures 2 * c < 0x1_0000_0000 && BitStep(c) == 2 * c
  {
    var k := p - 1;
    assert (2 * c) * p == 2 * c + (2 * c) * k;
    Pow2Constants();
    hide Pow2, Xor;
    PartsAre(c, 31, 0, c);
  }

  /** The table look-up does in one go what eight one-bit divisions do. */
  lemma TableIsBitwise(crc: Word, c: Byte)
    ensures Xor(crc, c * 0x100_0000) < 0x1_0000_0000
    ensures Update(crc, c) == BitSteps(Xor(crc, c * 0x100_0000), 8)
  {
    hide Xor, Pow2, BitSteps, High, Low;
    Pow2Constants();
    TopByte(crc);
    UpdateRange(crc, c);
    var h, l := High(crc, 24), Low(crc, 24);
    XorDisjoint(h, l, 24);
    var x, y, z: nat := h * 0x100_0000, l, c * 0x100_0000;
    XorAssoc(x, y, z);
    XorCommutes(y, z);
    XorAssoc(x, z, y);
    XorScale(h, c, 24);
    StepsLinear(Xor(h, c) * 0x100_0000, l, 8);
    StepsShift(l, 8);
    XorCommutes(TableEntry(Xor(h, c)), 256 * l);
  }

  /** The running value after the bytes s. */
  function Crc(crc: Word, s: seq<Byte>): Word {
    if s == [] then crc else Update(Crc(crc, s[..|s| - 1]), s[|s| - 1])
  }

  lemma {:induction false} CrcConcat(crc: Word, s: seq<Byte>, t: seq<Byte>)
    ensures Crc(crc, s + t) == Crc(Crc(crc, s), t)
  {
    hide Update;
    if t == [] {
      assert s + t == s;
    } else {
      CrcConcat(crc, s, t[..|t| - 1]);
      assert (s + t)[..|s + t| - 1] == s + t[..|t| - 1];
    }
  }

  lemma CrcOne(crc: Word, c: Byte)
    ensures Crc(crc, [c]) == Update(crc, c)
  {
    hide Update;
    assert [c][..0] == [];
  }

  const CRC_START: Word := 0xffff_ffff

  /** The checksum that is stored: all bits turned over. */
  function Final(crc: Word): Word { 0xffff_ffff - crc }

  /** c << 1 | c >> 31. */
  function Turned(c: Word): Word { c % 0x8000_0000 * 2 + c / 0x8000_0000 }

  /** The checksum over the blocks: turned by one bit, the next block's added in. */
  function Chain(c: Word, block: Word): Word {
    XorWord(Turned(c), block);
    Xor(Turned(c), block)
  }
}
