/** The CRC of section 8 of RFC 1952: a reflected shift register, its tables, and the
    loops that take a byte or a word of four bytes at a time. */
module Crc32 {
  import opened Bits
  import opened Reversal

  const TERMS: seq<nat> := [0, 1, 2, 4, 5, 7, 8, 10, 11, 12, 16, 22, 23, 26]
  const POLY: Word := 0xedb8_8320
  const ONES: Word := 0xffff_ffff

  /** The first n terms as bits, the term of degree 0 on the left. */
  ghost function Pattern(n: nat): nat
    requires n <= |TERMS|
  {
    if n == 0 then 0 else BitOr(Pattern(n - 1), Pow2(31 - TERMS[n - 1]))
  }

  /** One more bit, to the right of all others. */
  lemma OneTerm(n: nat, q: nat, k: nat)
    requires n < |TERMS| && k == 31 - TERMS[n] && Pattern(n) == q * Pow2(k + 1)
    ensures Pattern(n + 1) == q * Pow2(k + 1) + Pow2(k)
  {
    hide BitOr;
    BitOrDisjoint(q, Pow2(k), k + 1);
  }

  lemma Halves()
    ensures Pow2(31) == 0x8000_0000 && Pow2(30) == 0x4000_0000 && Pow2(29) == 0x2000_0000 && Pow2(28) == 0x1000_0000
    ensures Pow2(27) == 0x800_0000 && Pow2(26) == 0x400_0000 && Pow2(25) == 0x200_0000 && Pow2(24) == 0x100_0000
    ensures Pow2(23) == 0x80_0000 && Pow2(22) == 0x40_0000 && Pow2(21) == 0x20_0000 && Pow2(20) == 0x10_0000
    ensures Pow2(19) == 0x8_0000 && Pow2(16) == 0x1_0000 && Pow2(15) == 0x8000 && Pow2(10) == 0x400
    ensures Pow2(9) == 0x200 && Pow2(8) == 0x100 && Pow2(6) == 64 && Pow2(5) == 32 && Pow2(32) == 0x1_0000_0000
  {
    Pow2Constants();
    assert Pow2(23) == 0x80_0000 && Pow2(22) == 0x40_0000 && Pow2(21) == 0x20_0000 && Pow2(20) == 0x10_0000;
  }

  lemma FirstTerms()
    ensures Pattern(7) == 0xed80_0000
  {
    Halves();
    hide BitOr, Pow2;
    assert Pattern(0) == 0;
    OneTerm(0, 0, 31);
    OneTerm(1, 1, 30);
    OneTerm(2, 3, 29);
    OneTerm(3, 14, 27);
    OneTerm(4, 0x1d, 26);
    OneTerm(5, 0x76, 24);
    OneTerm(6, 0xed, 23);
  }

  /** The terms of the polynomial, x^32 left out, make up the register's constant. */
  lemma PatternIsPoly()
    ensures Pattern(|TERMS|) == POLY
  {
    FirstTerms();
    Halves();
    hide BitOr, Pow2, Pattern;
    OneTerm(7, 0x3b6, 21);
    OneTerm(8, 0x76d, 20);
    OneTerm(9, 0xedb, 19);
    OneTerm(10, 0xedb8, 15);
    OneTerm(11, 0x3b6e20, 9);
    OneTerm(12, 0x76dc41, 8);
    OneTerm(13, 0x3b6e20c, 5);
  }

  /** One bit through the register. */
  function Shift(c: Word): Word {
    ShiftRange(c);
    if c % 2 == 1 then Xor(POLY, c / 2) else c / 2
  }

  lemma ShiftRange(c: Word)
    ensures Xor(POLY, c / 2) < 0x1_0000_0000
  {
    XorWord(POLY, c / 2);
  }

  function Shifts(c: Word, n: nat): Word
    decreases n
  {
    if n == 0 then c else Shifts(Shift(c), n - 1)
  }

  /** The register after one more byte: the definition all loops are held to. */
  function Update(c: Word, b: Byte): Word {
    XorWord(c, b);
    Shifts(Xor(c, b), 8)
  }

  function Register(c: Word, s: seq<Byte>): Word {
    if s == [] then c else Update(Register(c, s[..|s| - 1]), s[|s| - 1])
  }

  /** The checksum continued from crc over the bytes s. */
  function Crc(crc: Word, s: seq<Byte>): Word {
    XorWord(crc, ONES);
    XorWord(Register(Xor(crc, ONES), s), ONES);
    Xor(Register(Xor(crc, ONES), s), ONES)
  }

  // ---- linearity ----

  lemma OddHalves(a: Word, b: Word)
    ensures Xor(a, b) < 0x1_0000_0000
    ensures Xor(a, b) / 2 == Xor(a / 2, b / 2) && (Xor(a, b) % 2 == 1 <==> (a % 2 == 1) != (b % 2 == 1))
  {
    XorWord(a, b);
    hide Xor;
    XorParts(a, b);
  }

  lemma ShiftLinear(a: Word, b: Word)
    ensures Xor(a, b) < 0x1_0000_0000 && Shift(Xor(a, b)) == Xor(Shift(a), Shift(b))
  {
    hide Xor;
    OddHalves(a, b);
    var x, y := a / 2, b / 2;
    XorSwap(POLY, x, POLY, y);
    XorSelf(POLY);
    XorZero(Xor(x, y));
    XorAssoc(POLY, x, y);
    XorCommutes(POLY, x);
    XorAssoc(x, POLY, y);
    XorCommutes(x, Xor(POLY, y));
    XorAssoc(POLY, y, x);
    XorCommutes(y, x);
  }

  lemma {:induction false} ShiftsLinear(a: Word, b: Word, n: nat)
    ensures Xor(a, b) < 0x1_0000_0000 && Shifts(Xor(a, b), n) == Xor(Shifts(a, n), Shifts(b, n))
    decreases n
  {
    hide Shift, Xor;
    XorWord(a, b);
    if n > 0 {
      ShiftLinear(a, b);
      ShiftsLinear(Shift(a), Shift(b), n - 1);
    }
  }

  lemma {:induction false} ShiftsAdd(c: Word, m: nat, n: nat)
    ensures Shifts(c, m + n) == Shifts(Shifts(c, m), n)
    decreases m
  {
    hide Shift;
    if m > 0 { ShiftsAdd(Shift(c), m - 1, n); }
  }

  /** While the low bits are zero, the register only moves down. */
  lemma {:induction false} ShiftsDown(c: nat, n: nat)
    requires c * Pow2(n) < 0x1_0000_0000
    ensures Shifts(c * Pow2(n), n) == c
    decreases n
  {
    if n > 0 {
      var p := Pow2(n - 1);
      assert Pow2(n) == 2 * p;
      BitTimes(c, p);
      hide Xor;
      assert c * Pow2(n) == 2 * (c * p);
      ShiftsDown(c, n - 1);
    }
  }

  /** The low byte goes through n shifts, the rest through eight fewer. */
  lemma Peel(c: Word, n: nat)
    requires n >= 8
    ensures Low(c, 8) < 256 && High(c, 8) < 0x100_0000
    ensures Shifts(c, n) == Xor(Shifts(Low(c, 8), n), Shifts(High(c, 8), n - 8))
  {
    Pow2Constants();
    hide Xor, Low, High, Pow2, Shifts;
    HighLow(c, 8);
    var h, l := High(c, 8), Low(c, 8);
    XorDisjoint(h, l, 8);
    ShiftsLinear(h * 256, l, n);
    ShiftsAdd(h * 256, 8, n - 8);
    ShiftsDown(h, 8);
    XorCommutes(Shifts(h * 256, n), Shifts(l, n));
  }

  // ---- four bytes as a word ----

  /** The four bytes of a word, lowest first. */
  datatype Quad = Quad(b0: Byte, b1: Byte, b2: Byte, b3: Byte)

  function Join(q: Quad): Word {
    q.b0 + 0x100 * q.b1 + 0x1_0000 * q.b2 + 0x100_0000 * q.b3
  }

  function Split(c: Word): Quad {
    SplitRange(c);
    Quad(Low(c, 8), Low(High(c, 8), 8), Low(High(c, 16), 8), High(c, 24))
  }

  lemma SplitRange(c: Word)
    ensures Low(c, 8) < 256 && Low(High(c, 8), 8) < 256 && Low(High(c, 16), 8) < 256 && High(c, 24) < 256
    ensures c == Low(c, 8) + 0x100 * Low(High(c, 8), 8) + 0x1_0000 * Low(High(c, 16), 8) + 0x100_0000 * High(c, 24)
  {
    Pow2Constants();
    hide High, Low, Pow2;
    HighLow(c, 8);
    HighLow(High(c, 8), 8);
    HighLow(High(c, 16), 8);
    HighHigh(c, 8, 8);
    HighHigh(c, 16, 8);
  }

  lemma SplitJoin(q: Quad)
    ensures Split(Join(q)) == q
  {
    Pow2Constants();
    hide Low, High, Pow2;
    var c := Join(q);
    var u, v := q.b1 + 0x100 * q.b2 as int + 0x1_0000 * q.b3 as int, q.b2 + 0x100 * q.b3 as int;
    PartsAre(c, 8, u, q.b0);
    PartsAre(u, 8, v, q.b1);
    PartsAre(v, 8, q.b3, q.b2);
    HighHigh(c, 8, 8);
    HighHigh(c, 16, 8);
  }

  lemma JoinSplit(c: Word)
    ensures Join(Split(c)) == c
  {
    SplitRange(c);
    hide Low, High;
  }

  function XorByte(a: Byte, b: Byte): Byte {
    ByteXor(a, b);
    Xor(a, b)
  }

  lemma ByteXor(a: Byte, b: Byte)
    ensures Xor(a, b) < 256
  {
    Pow2Constants();
    hide Xor, Pow2;
    XorBound(a, b, 8);
  }

  function XorQuad(p: Quad, q: Quad): Quad {
    Quad(XorByte(p.b0, q.b0), XorByte(p.b1, q.b1), XorByte(p.b2, q.b2), XorByte(p.b3, q.b3))
  }

  /** Exclusive or of words is exclusive or of their bytes. */
  lemma SplitXor(a: Word, b: Word)
    ensures Xor(a, b) < 0x1_0000_0000 && Split(Xor(a, b)) == XorQuad(Split(a), Split(b))
  {
    hide Xor, Low, High;
    XorWord(a, b);
    XorLow(a, b, 8);
    XorHigh(a, b, 8);
    XorLow(High(a, 8), High(b, 8), 8);
    XorHigh(a, b, 16);
    XorLow(High(a, 16), High(b, 16), 8);
    XorHigh(a, b, 24);
  }

  lemma JoinXor(p: Quad, q: Quad)
    ensures Xor(Join(p), Join(q)) == Join(XorQuad(p, q))
  {
    SplitXor(Join(p), Join(q));
    SplitJoin(p);
    SplitJoin(q);
    JoinSplit(Xor(Join(p), Join(q)));
    hide Join, Split, XorQuad, Xor;
  }

  /** ZSWAP32. */
  function Swap(c: Word): Word {
    var q := Split(c);
    Join(Quad(q.b3, q.b2, q.b1, q.b0))
  }

  lemma SwapTwice(c: Word)
    ensures Swap(Swap(c)) == c
  {
    var q := Split(c);
    SplitJoin(Quad(q.b3, q.b2, q.b1, q.b0));
    JoinSplit(c);
    hide Join, Split;
  }

  lemma SwapXor(a: Word, b: Word)
    ensures Xor(a, b) < 0x1_0000_0000 && Swap(Xor(a, b)) == Xor(Swap(a), Swap(b))
  {
    hide Xor, Join, Split;
    SplitXor(a, b);
    var p, q := Split(a), Split(b);
    JoinXor(Quad(p.b3, p.b2, p.b1, p.b0), Quad(q.b3, q.b2, q.b1, q.b0));
  }

  /** A word through four bytes of shifts, one look-up for each of its bytes. */
  lemma FourLookups(c: Word)
    ensures var q := Split(c);
            Shifts(c, 32) == Xor(Xor(Xor(Shifts(q.b0, 32), Shifts(q.b1, 24)), Shifts(q.b2, 16)), Shifts(q.b3, 8))
  {
    hide Xor, Shifts, Low, High;
    Peel(c, 32);
    var h := High(c, 8);
    Peel(h, 24);
    HighHigh(c, 8, 8);
    var h2 := High(c, 16);
    Peel(h2, 16);
    HighHigh(c, 16, 8);
    var q := Split(c);
    XorAssoc(Shifts(q.b0, 32), Shifts(q.b1, 24), Shifts(h2, 16));
    XorAssoc(Xor(Shifts(q.b0, 32), Shifts(q.b1, 24)), Shifts(q.b2, 16), Shifts(q.b3, 8));
  }

  /** The bytes s as a number, low byte first. */
  function Little(s: seq<Byte>): nat {
    if s == [] then 0 else Little(s[..|s| - 1]) + s[|s| - 1] * Pow2(8 * (|s| - 1))
  }

  lemma {:induction false} LittleBound(s: seq<Byte>)
    ensures Little(s) < Pow2(8 * |s|)
  {
    if s != [] {
      var k := |s| - 1;
      LittleBound(s[..k]);
      Pow2Add(8, 8 * k);
      Pow2Constants();
      hide Pow2;
      MulMono(s[k] as int + 1, 256, Pow2(8 * k));
      assert (s[k] + 1) * Pow2(8 * k) == s[k] * Pow2(8 * k) + Pow2(8 * k);
    }
  }

  lemma WordBytes(s: seq<Byte>)
    requires |s| <= 4
    ensures Little(s) < 0x1_0000_0000
  {
    LittleBound(s);
    Pow2Monotone(8 * |s|, 32);
    Pow2Constants();
  }

  /** Up to four bytes go through the register together. */
  lemma {:induction false} RegisterWord(c: Word, s: seq<Byte>)
    requires |s| <= 4
    ensures Little(s) < 0x1_0000_0000 && Xor(c, Little(s)) < 0x1_0000_0000
    ensures Register(c, s) == Shifts(Xor(c, Little(s)), 8 * |s|)
    decreases |s|
  {
    WordBytes(s);
    if s == [] {
      XorZero(c);
    } else {
      var k := |s| - 1;
      WordBytes(s[..k]);
      LittleBound(s[..k]);
      RegisterWord(c, s[..k]);
      hide Xor, Shifts, Pow2, Little, Register, Update;
      RegisterLast(c, s);
      LittleLast(s);
      RegisterStep(c, Little(s[..k]), s[k], k);
    }
  }

  lemma RegisterStep(c: Word, v: Word, b: Byte, k: nat)
    requires k < 4 && v < Pow2(8 * k) && v + b * Pow2(8 * k) < 0x1_0000_0000
    ensures Xor(c, v) < 0x1_0000_0000 && Xor(c, v + b * Pow2(8 * k)) < 0x1_0000_0000
    ensures Update(Shifts(Xor(c, v), 8 * k), b) == Shifts(Xor(c, v + b * Pow2(8 * k)), 8 * k + 8)
  {
    hide Xor, Shifts, Pow2;
    var p := Pow2(8 * k);
    MulMono(0, b, p);
    var t: Word := b * p;
    XorWord(c, v);
    XorDisjoint(b, v, 8 * k);
    XorCommutes(t, v);
    XorAssoc(c, v, t);
    ShiftsDown(b, 8 * k);
    ShiftsLinear(Xor(c, v), t, 8 * k);
    ShiftsAdd(Xor(c, v + t), 8 * k, 8);
  }

  lemma RegisterLast(c: Word, s: seq<Byte>)
    requires s != []
    ensures Register(c, s) == Update(Register(c, s[..|s| - 1]), s[|s| - 1])
  {
  }

  lemma LittleLast(s: seq<Byte>)
    requires s != []
    ensures Little(s) == Little(s[..|s| - 1]) + s[|s| - 1] * Pow2(8 * (|s| - 1))
  {
  }

  lemma LittleFour(s: seq<Byte>)
    requires |s| == 4
    ensures Little(s) == Join(Quad(s[0], s[1], s[2], s[3]))
  {
    Pow2Constants();
    assert Pow2(0) == 1;
    assert s[..4] == s && s[..4][..3] == s[..3] && s[..3][..2] == s[..2] && s[..2][..1] == s[..1] && s[..1][..0] == [];
    hide Pow2, Little;
    LittleLast(s);
    LittleLast(s[..3]);
    LittleLast(s[..2]);
    LittleLast(s[..1]);
    LittleNone();
  }

  lemma LittleNone()
    ensures Little([]) == 0
  {
  }

  lemma {:induction false} RegisterConcat(c: Word, s: seq<Byte>, t: seq<Byte>)
    ensures Register(c, s + t) == Register(Register(c, s), t)
  {
    hide Update;
    if t == [] {
      assert s + t == s;
    } else {
      RegisterConcat(c, s, t[..|t| - 1]);
      assert (s + t)[..|s + t| - 1] == s + t[..|t| - 1];
    }
  }
}
