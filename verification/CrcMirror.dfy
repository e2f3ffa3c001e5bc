/** The block checksum is the checksum of section 8 of RFC 1952 seen in a mirror: the register's bits and each
    byte's bits in reverse order. Its polynomial, too, so follows from the list of terms. */
module CrcMirror {
  import opened Bits
  import opened Reversal
  import B = BlockCrc
  import C = Crc32

  /** Each byte with its bits in reverse order. */
  ghost function Mirrored(s: seq<Byte>): (r: seq<Byte>)
    ensures |r| == |s|
  {
    if s == [] then []
    else
      MirrorByte(s[|s| - 1]);
      Mirrored(s[..|s| - 1]) + [Rev(s[|s| - 1], 8)]
  }

  lemma MirrorByte(c: Byte)
    ensures Rev(c, 8) < 256
  {
    Pow2Constants();
    RevBound(c, 8);
  }

  lemma MirrorWord(c: Word)
    ensures Rev(c, 32) < 0x1_0000_0000
  {
    Pow2Constants();
    hide Rev, Pow2;
    RevBound(c, 32);
  }

  lemma {:induction false} RevXor(a: nat, b: nat, m: nat)
    ensures Rev(Xor(a, b), m) == Xor(Rev(a, m), Rev(b, m))
    decreases m
  {
    hide Xor, Pow2;
    if m == 0 {
      XorZero(0);
    } else {
      XorParts(a, b);
      RevXor(a / 2, b / 2, m - 1);
      hide Rev;
      RevBound(a / 2, m - 1);
      RevBound(b / 2, m - 1);
      LowBits(a % 2, b % 2);
      XorStacked(a % 2, Rev(a / 2, m - 1), b % 2, Rev(b / 2, m - 1), m - 1);
      TopTimes(a, m);
      TopTimes(b, m);
      TopTimes(Xor(a, b), m);
    }
  }

  lemma LowBits(x: nat, y: nat)
    requires x < 2 && y < 2
    ensures Xor(x, y) == (x + y) % 2
  {
    assert Xor(0, 0) == 0;
  }

  lemma TopTimes(v: nat, m: nat)
    requires m > 0
    ensures Rev(v, m) == v % 2 * Pow2(m - 1) + Rev(v / 2, m - 1)
  {
    hide Pow2;
    OneOrNone(v % 2, Pow2(m - 1));
  }

  lemma RevNext(v: nat, m: nat, r: nat)
    requires m > 0 && Rev(v / 2, m - 1) == r
    ensures Rev(v, m) == (if v % 2 == 1 then Pow2(m - 1) else 0) + r
  {
  }

  /** The upper half of the polynomial, bit by bit. */
  lemma UpperMirrored()
    ensures Rev(0x1304, 18) == 0x8320
  {
    C.Halves();
    RevNone(5);
    hide Rev, Pow2;
    RevNext(0x1, 6, 0x0);
    RevNext(0x2, 7, 0x20);
    RevNext(0x4, 8, 0x20);
    RevNext(0x9, 9, 0x20);
    RevNext(0x13, 10, 0x120);
    RevNext(0x26, 11, 0x320);
    RevNext(0x4c, 12, 0x320);
    RevNext(0x98, 13, 0x320);
    RevNext(0x130, 14, 0x320);
    RevNext(0x260, 15, 0x320);
    RevNext(0x4c1, 16, 0x320);
    RevNext(0x982, 17, 0x8320);
    RevNext(0x1304, 18, 0x8320);
  }

  /** The polynomial, mirrored. */
  lemma PolynomialMirrored()
    ensures Rev(B.POLYNOMIAL, 32) == C.POLY
  {
    C.Halves();
    UpperMirrored();
    hide Rev, Pow2;
    RevNext(0x2608, 19, 0x8320);
    RevNext(0x4c11, 20, 0x8320);
    RevNext(0x9823, 21, 0x88320);
    RevNext(0x13047, 22, 0x188320);
    RevNext(0x2608e, 23, 0x388320);
    RevNext(0x4c11d, 24, 0x388320);
    RevNext(0x9823b, 25, 0xb88320);
    RevNext(0x130476, 26, 0x1b88320);
    RevNext(0x2608ed, 27, 0x1b88320);
    RevNext(0x4c11db, 28, 0x5b88320);
    RevNext(0x9823b6, 29, 0xdb88320);
    RevNext(0x130476d, 30, 0xdb88320);
    RevNext(0x2608edb, 31, 0x2db88320);
    RevNext(0x4c11db7, 32, 0x6db88320);
  }

  /** One step is one step. */
  lemma StepMirrored(c: Word)
    ensures Rev(c, 32) < 0x1_0000_0000 && Rev(B.BitStep(c), 32) == C.Shift(Rev(c, 32))
  {
    hide Rev, Low, High, Xor;
    MirrorWord(c);
    B.ShiftedLow(c);
    RevLowest(c, 32);
    var l := Low(c, 31);
    DoubleRev(l, 31);
    RevXor(2 * l, B.POLYNOMIAL, 32);
    PolynomialMirrored();
    XorCommutes(Rev(l, 31), C.POLY);
    Parities(High(c, 31));
  }

  lemma Parities(h: nat)
    requires h <= 1
    ensures h % 2 == h
  {
  }

  lemma DoubleRev(l: nat, m: nat)
    ensures Rev(2 * l, m + 1) == Rev(l, m)
  {
    assert 2 * l / 2 == l && 2 * l % 2 == 0;
  }

  lemma {:induction false} StepsMirrored(c: Word, n: nat)
    ensures Rev(c, 32) < 0x1_0000_0000 && Rev(B.BitSteps(c, n), 32) == C.Shifts(Rev(c, 32), n)
    decreases n
  {
    hide Rev, B.BitStep, C.Shift;
    MirrorWord(c);
    if n > 0 {
      StepMirrored(c);
      StepsMirrored(B.BitStep(c), n - 1);
    }
  }

  lemma UpdateMirrored(crc: Word, c: Byte)
    ensures Rev(crc, 32) < 0x1_0000_0000 && Rev(c, 8) < 256
            && Rev(B.Update(crc, c), 32) == C.Update(Rev(crc, 32), Rev(c, 8))
  {
    Pow2Constants();
    hide Rev, Xor, Pow2, B.Update, B.BitSteps, C.Shifts;
    MirrorWord(crc);
    MirrorByte(c);
    B.TableIsBitwise(crc, c);
    StepsMirrored(Xor(crc, c * 0x100_0000), 8);
    RevXor(crc, c * 0x100_0000, 32);
    RevMultiple(c, 32, 8);
  }

  lemma {:induction false} RegisterMirrored(crc: Word, s: seq<Byte>)
    ensures Rev(crc, 32) < 0x1_0000_0000 && Rev(B.Crc(crc, s), 32) == C.Register(Rev(crc, 32), Mirrored(s))
  {
    hide Rev, B.Update, C.Update;
    MirrorWord(crc);
    if s != [] {
      var k := |s| - 1;
      RegisterMirrored(crc, s[..k]);
      UpdateMirrored(B.Crc(crc, s[..k]), s[k]);
      assert Mirrored(s)[..k] == Mirrored(s[..k]);
    }
  }

  lemma {:induction false} OnesMirrored(m: nat)
    ensures Rev(Pow2(m) - 1, m) == Pow2(m) - 1
  {
    if m > 0 {
      OnesMirrored(m - 1);
      assert (Pow2(m) - 1) / 2 == Pow2(m - 1) - 1;
    }
  }

  /** The checksum stored for a block is, mirrored, the CRC-32 of its bytes, mirrored. */
  lemma BlockSumMirrored(s: seq<Byte>)
    ensures Rev(B.Final(B.Crc(B.CRC_START, s)), 32) == C.Crc(0, Mirrored(s))
  {
    hide Rev, Xor, Pow2, B.Update, C.Update;
    Pow2Constants();
    OnesMirrored(32);
    var r := B.Crc(B.CRC_START, s);
    RegisterMirrored(B.CRC_START, s);
    FinalMirrored(r);
    XorZero(C.ONES);
  }

  lemma FinalMirrored(r: Word)
    ensures Rev(B.Final(r), 32) == Xor(Rev(r, 32), C.ONES)
  {
    hide Rev, Xor, Pow2;
    Pow2Constants();
    OnesMirrored(32);
    XorOnes(r, 32);
    RevXor(r, C.ONES, 32);
  }

  // ---- the checksum over all blocks ----

  lemma {:induction false} BitIsHigh(v: nat, i: nat)
    ensures BitOf(v, i) <==> High(v, i) % 2 == 1
  {
    if i > 0 { BitIsHigh(v / 2, i - 1); }
  }

  /** Turning is a rotation: bit i comes from the bit below it, the lowest from the highest. */
  lemma TurnedBit(c: Word, i: nat)
    requires i < 32
    ensures BitOf(B.Turned(c), i) <==> BitOf(c, if i == 0 then 31 else i - 1)
  {
    Pow2Constants();
    var l, h := c % 0x8000_0000, c / 0x8000_0000;
    DivisionIs(B.Turned(c), 2, l, h);
    if i == 0 {
      BitIsHigh(c, 31);
      hide Pow2;
      PartsAre(c, 31, h, l);
    } else {
      LowBit(c, 31, i - 1, h, l);
    }
  }

  lemma {:induction false} LowBit(v: nat, n: nat, i: nat, h: nat, l: nat)
    requires i < n && v == h * Pow2(n) + l
    ensures BitOf(v, i) <==> BitOf(l, i)
    decreases n
  {
    var p := Pow2(n - 1);
    Doubled(h, p);
    assert v == 2 * (h * p) + l;
    if i > 0 {
      hide Pow2;
      LowBit(v / 2, n - 1, i - 1, h, l / 2);
    }
  }

  /** Bit i of the combined checksum after one more block: the old one's bit below, unless the block has a one there. */
  lemma ChainBit(c: Word, block: Word, i: nat)
    requires i < 32
    ensures BitOf(B.Chain(c, block), i) <==> (BitOf(c, if i == 0 then 31 else i - 1) != BitOf(block, i))
  {
    hide Xor, BitOf, B.Turned;
    TurnedBit(c, i);
    XorBits(B.Turned(c), block, i);
  }
}
