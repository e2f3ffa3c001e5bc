/** The table-driven CRC loops: one byte at a time, and four at a time in either byte order. */
module Crc32Loops {
  import opened Bits
  import opened Reversal
  import opened Crc32

  // ---- tables ----

  /** A byte followed by k zero bytes, through the register. */
  function Zeros(n: Byte, k: nat): Word {
    Shifts(n, 8 * k + 8)
  }

  /** Entry n of table k, and of the byte-swapped table k + 4. */
  ghost predicate Entries(t: array2<Word>, n: Byte, k: nat)
    requires t.Length0 == 8 && t.Length1 == 256 && k < 4
    reads t
  {
    t[k, n] == Zeros(n, k) && t[k + 4, n] == Swap(Zeros(n, k))
  }

  ghost predicate Column(t: array2<Word>, n: Byte, K: nat)
    requires t.Length0 == 8 && t.Length1 == 256 && K <= 4
    reads t
  {
    forall k: nat :: k < K ==> Entries(t, n, k)
  }

  ghost predicate Tables(t: array2<Word>)
    reads t
  {
    t.Length0 == 8 && t.Length1 == 256 && forall n: Byte :: Column(t, n, 4)
  }

  /** One look-up and a shift of eight take the register a byte further. */
  lemma LookupByte(c: Word)
    ensures Low(c, 8) < 256 && Xor(Shifts(Low(c, 8), 8), High(c, 8)) == Shifts(c, 8)
  {
    hide Xor, Shift, Low, High;
    Peel(c, 8);
  }

  lemma ShiftsLast(c: Word, k: nat)
    requires k > 0
    ensures Shifts(c, k) == Shift(Shifts(c, k - 1))
  {
    hide Shift;
    ShiftsAdd(c, k - 1, 1);
    assert Shifts(Shift(Shifts(c, k - 1)), 0) == Shift(Shifts(c, k - 1));
  }

  lemma HalfWord(c: Word)
    ensures Shift(c) == if c % 2 == 1 then Xor(POLY, c / 2) else c / 2
  {
  }

  ghost predicate First(t: array2<Word>, n: Byte)
    requires t.Length0 == 8 && t.Length1 == 256
    reads t
  {
    t[0, n] == Shifts(n, 8)
  }

  /** A byte through eight shifts. */
  method ByteShifts(n: Byte, poly: Word) returns (c: Word)
    requires poly == POLY
    ensures c == Shifts(n, 8)
  {
    hide Xor, Shift, Shifts;
    c := n;
    NoShifts(n);
    for k := 0 to 8
      invariant c == Shifts(n, k)
    {
      ShiftsLast(n, k + 1);
      HalfWord(c);
      XorWord(poly, c / 2);
      c := if c % 2 == 1 then Xor(poly, c / 2) else c / 2;
    }
  }

  lemma NoShifts(c: Word)
    ensures Shifts(c, 0) == c
  {
  }

  /** The first table. */
  /** The polynomial's terms as bits. */
  method MakePoly() returns (poly: nat)
    ensures poly == POLY
  {
    hide BitOr, Pow2;
    poly := 0;
    for n := 0 to |TERMS|
      invariant poly == Pattern(n)
    {
      poly := BitOr(poly, Pow2(31 - TERMS[n]));
    }
    PatternIsPoly();
  }

  method FirstTable(t: array2<Word>, poly: Word)
    requires t.Length0 == 8 && t.Length1 == 256 && poly == POLY
    modifies t
    ensures forall n: Byte :: First(t, n)
  {
    hide Shifts;
    for n := 0 to 256
      invariant forall m: Byte :: m < n ==> First(t, m)
    {
      label L:
      t[0, n] := ByteShifts(n, poly);
      forall m: Byte | m < n + 1 ensures First(t, m) { if m < n { assert old@L(First(t, m)); } }
    }
  }

  lemma NextZeros(n: Byte, k: nat)
    ensures Low(Zeros(n, k), 8) < 256 && Xor(Shifts(Low(Zeros(n, k), 8), 8), High(Zeros(n, k), 8)) == Zeros(n, k + 1)
  {
    hide Shifts, Xor, Low, High;
    LookupByte(Zeros(n, k));
    ShiftsAdd(n, 8 * k + 8, 8);
  }

  /** The same entry of all other tables, each from the one before. */
  method FillColumn(t: array2<Word>, n: Byte)
    requires t.Length0 == 8 && t.Length1 == 256 && forall m: Byte :: First(t, m)
    modifies t
    ensures Column(t, n, 4)
    ensures forall i, j :: 0 <= i < 8 && 0 <= j < 256 && (i == 0 || j != n) ==> t[i, j] == old(t[i, j])
  {
    hide Xor, Shifts, Swap, Low, High, Zeros;
    assert First(t, n);
    FirstZeros(n);
    var c := t[0, n];
    t[4, n] := Swap(c);
    for k := 1 to 4
      invariant c == Zeros(n, k - 1) && Column(t, n, k)
      invariant forall i, j :: 0 <= i < 8 && 0 <= j < 256 && (i == 0 || j != n) ==> t[i, j] == old(t[i, j])
    {
      NextZeros(n, k - 1);
      assert old(First(t, Low(c, 8)));
      c := Xor(t[0, Low(c, 8)], High(c, 8));
      label L:
      t[k, n] := c;
      t[k + 4, n] := Swap(c);
      forall k': nat | k' < k + 1 ensures Entries(t, n, k') { if k' < k { assert old@L(Entries(t, n, k')); } }
    }
  }

  lemma FirstZeros(n: Byte)
    ensures Zeros(n, 0) == Shifts(n, 8)
  {
  }

  /** All eight tables. */
  method MakeTables() returns (t: array2<Word>)
    ensures fresh(t) && Tables(t)
  {
    hide Shifts, Swap, Zeros, BitOr, Pow2;
    t := new Word[8, 256]((i, j) => 0);
    var poly := MakePoly();
    FirstTable(t, poly);
    for n: int := 0 to 256
      invariant forall m: Byte :: m < n ==> Column(t, m, 4)
      invariant forall m: Byte :: First(t, m)
    {
      label L:
      FillColumn(t, n);
      forall m: Byte ensures First(t, m) { assert old@L(First(t, m)); }
      forall m: Byte | m < n ensures Column(t, m, 4) {
        assert old@L(Column(t, m, 4));
        assert forall k: nat :: k < 4 ==> old@L(Entries(t, m, k)) ==> Entries(t, m, k);
      }
    }
  }

  // ---- one byte ----

  lemma ByteStep(c: Word, b: Byte)
    ensures Low(c, 8) < 256 && XorByte(Low(c, 8), b) == Low(Xor(c, b), 8) && High(Xor(c, b), 8) == High(c, 8)
            && Xor(c, b) < 0x1_0000_0000
    ensures Update(c, b) == Xor(Zeros(XorByte(Low(c, 8), b), 0), High(c, 8))
  {
    XorWord(c, b);
    SplitRange(c);
    Pow2Constants();
    hide Xor, Low, High, Shifts, Pow2;
    XorLow(c, b, 8);
    XorHigh(c, b, 8);
    LowSmall(b, 8);
    XorZero(High(c, 8));
    LookupByte(Xor(c, b));
  }

  /** DO1. */
  method StepByte(t: array2<Word>, c: Word, b: Byte) returns (r: Word)
    requires Tables(t)
    ensures r == Update(c, b)
  {
    hide Xor, Low, High, Shifts, Update, Zeros, Swap, XorByte;
    SplitRange(c);
    ByteStep(c, b);
    var i := XorByte(Low(c, 8), b);
    assert Column(t, i, 4) && Entries(t, i, 0);
    r := Xor(t[0, i], High(c, 8));
  }

  /** The whole register, once over. */
  method BytesLoop(t: array2<Word>, c0: Word, buf: seq<Byte>) returns (c: Word)
    requires Tables(t)
    ensures c == Register(c0, buf)
  {
    hide Update, Tables;
    c := c0;
    assert buf[..0] == [];
    for i := 0 to |buf|
      invariant c == Register(c0, buf[..i])
    {
      assert buf[..i + 1][..i] == buf[..i];
      c := StepByte(t, c, buf[i]);
    }
    assert buf[..|buf|] == buf;
  }

  // ---- four bytes, low byte first ----

  lemma WordStep(c: Word, s: seq<Byte>)
    requires |s| == 4
    ensures Xor(c, Join(Quad(s[0], s[1], s[2], s[3]))) < 0x1_0000_0000
    ensures var q := Split(Xor(c, Join(Quad(s[0], s[1], s[2], s[3]))));
            Register(c, s) == Xor(Xor(Xor(Zeros(q.b0, 3), Zeros(q.b1, 2)), Zeros(q.b2, 1)), Zeros(q.b3, 0))
  {
    var w := Join(Quad(s[0], s[1], s[2], s[3]));
    XorWord(c, w);
    hide Xor, Low, High, Shifts, Little, Register, Join, Split;
    RegisterWord(c, s);
    LittleFour(s);
    FourLookups(Xor(c, w));
  }

  /** DOLIT4, with the word read from memory low byte first. */
  method StepLittle(t: array2<Word>, c: Word, s: seq<Byte>) returns (r: Word)
    requires Tables(t) && |s| == 4
    ensures r == Register(c, s)
  {
    hide Xor, Low, High, Shifts, Register, Zeros, Swap, Join, Split;
    WordStep(c, s);
    var q := Split(Xor(c, Join(Quad(s[0], s[1], s[2], s[3]))));
    assert Column(t, q.b0, 4) && Entries(t, q.b0, 3) && Column(t, q.b1, 4) && Entries(t, q.b1, 2);
    assert Column(t, q.b2, 4) && Entries(t, q.b2, 1) && Column(t, q.b3, 4) && Entries(t, q.b3, 0);
    r := Xor(Xor(Xor(t[3, q.b0], t[2, q.b1]), t[1, q.b2]), t[0, q.b3]);
  }

  lemma RegisterMore(c: Word, buf: seq<Byte>, i: nat, n: nat)
    requires i + n <= |buf|
    ensures Register(c, buf[..i + n]) == Register(Register(c, buf[..i]), buf[i..i + n])
  {
    hide Update;
    RegisterConcat(c, buf[..i], buf[i..i + n]);
    assert buf[..i] + buf[i..i + n] == buf[..i + n];
  }

  /** crc32_little: single bytes up to an aligned address, words, and the bytes left over. */
  method Crc32Little(t: array2<Word>, crc: Word, buf: seq<Byte>, address: nat) returns (r: Word)
    requires Tables(t)
    ensures r == Crc(crc, buf)
  {
    hide Update, Tables, Xor, Register;
    XorWord(crc, ONES);
    var c0 := Xor(crc, ONES);
    var c, i := c0, 0;
    RegisterNone(c0, buf);
    while i < |buf| && (address + i) % 4 != 0
      invariant i <= |buf| && c == Register(c0, buf[..i])
    {
      RegisterMore(c0, buf, i, 1);
      RegisterOne(c, buf[i..i + 1]);
      c := StepByte(t, c, buf[i]);
      i := i + 1;
    }
    while |buf| - i >= 32
      invariant i <= |buf| && c == Register(c0, buf[..i])
      decreases |buf| - i
    {
      var was := i;
      while i < was + 32
        invariant was <= i <= was + 32 && (i - was) % 4 == 0 && c == Register(c0, buf[..i])
      {
        RegisterMore(c0, buf, i, 4);
        c := StepLittle(t, c, buf[i..i + 4]);
        i := i + 4;
      }
    }
    while |buf| - i >= 4
      invariant i <= |buf| && c == Register(c0, buf[..i])
      decreases |buf| - i
    {
      RegisterMore(c0, buf, i, 4);
      c := StepLittle(t, c, buf[i..i + 4]);
      i := i + 4;
    }
    while i < |buf|
      invariant i <= |buf| && c == Register(c0, buf[..i])
    {
      RegisterMore(c0, buf, i, 1);
      RegisterOne(c, buf[i..i + 1]);
      c := StepByte(t, c, buf[i]);
      i := i + 1;
    }
    assert buf[..i] == buf;
    XorWord(c, ONES);
    r := Xor(c, ONES);
  }

  lemma RegisterNone(c: Word, buf: seq<Byte>)
    ensures Register(c, buf[..0]) == c
  {
  }

  lemma RegisterOne(c: Word, s: seq<Byte>)
    requires |s| == 1
    ensures Register(c, s) == Update(c, s[0])
  {
    hide Update;
    RegisterLast(c, s);
    assert s[..0] == [];
  }

  // ---- four bytes, high byte first ----

  lemma SwapHighByte(c: Word, b: Byte)
    ensures High(c, 8) < 0x100_0000 && High(Swap(c), 24) == Low(c, 8) && Low(Swap(c), 24) * 256 == Swap(High(c, 8))
  {
    SplitRange(c);
    SplitRange(Swap(c));
    var q := Split(c);
    SplitJoin(Quad(q.b3, q.b2, q.b1, q.b0));
    HighShift(c);
    Pow2Constants();
    hide High, Low, Pow2;
    HighLow(Swap(c), 24);
    SplitJoin(Quad(q.b1, q.b2, q.b3, 0));
  }

  lemma HighShift(c: Word)
    ensures High(c, 8) < 0x100_0000 && var q := Split(c); Split(High(c, 8)) == Quad(q.b1, q.b2, q.b3, 0)
  {
    SplitRange(c);
    Pow2Constants();
    hide High, Low, Pow2;
    HighLow(c, 8);
    var h := High(c, 8);
    var q := Split(c);
    SplitJoin(Quad(q.b1, q.b2, q.b3, 0));
  }

  /** The byte step on a byte-swapped register. */
  method StepByteBig(t: array2<Word>, d: Word, b: Byte, ghost c: Word) returns (r: Word)
    requires Tables(t) && d == Swap(c)
    ensures r == Swap(Update(c, b))
  {
    hide Xor, Low, High, Shifts, Update, Zeros, Swap, XorByte;
    SplitRange(c);
    SplitRange(d);
    SwapHighByte(c, b);
    HighShift(c);
    ByteStep(c, b);
    var i := XorByte(High(d, 24), b);
    assert Column(t, i, 4) && Entries(t, i, 0);
    SwapXor(Zeros(i, 0), High(c, 8));
    r := Xor(t[4, i], Low(d, 24) * 256);
  }

  lemma WordStepBig(c: Word, d: Word, s: seq<Byte>)
    requires |s| == 4 && d == Swap(c)
    ensures Xor(d, Join(Quad(s[3], s[2], s[1], s[0]))) < 0x1_0000_0000
    ensures var q := Split(Xor(d, Join(Quad(s[3], s[2], s[1], s[0]))));
            Swap(Register(c, s)) == Xor(Xor(Xor(Swap(Zeros(q.b0, 0)), Swap(Zeros(q.b1, 1))), Swap(Zeros(q.b2, 2))),
                                        Swap(Zeros(q.b3, 3)))
  {
    WordStep(c, s);
    var w := Quad(s[0], s[1], s[2], s[3]);
    var v := Quad(s[3], s[2], s[1], s[0]);
    SwapXor(c, Join(w));
    SwapOfJoin(w);
    var x := Xor(c, Join(w));
    hide Xor, Low, High, Shifts, Register, Zeros, Join, Split;
    SplitOfSwap(x);
    var q := Split(x);
    FourSwapped(Zeros(q.b0, 3), Zeros(q.b1, 2), Zeros(q.b2, 1), Zeros(q.b3, 0));
  }

  lemma SwapOfJoin(q: Quad)
    ensures Swap(Join(q)) == Join(Quad(q.b3, q.b2, q.b1, q.b0))
  {
    SplitJoin(q);
    hide Join, Split;
  }

  lemma SplitOfSwap(x: Word)
    ensures var q := Split(x); Split(Swap(x)) == Quad(q.b3, q.b2, q.b1, q.b0)
  {
    var q := Split(x);
    SplitJoin(Quad(q.b3, q.b2, q.b1, q.b0));
    hide Join, Split;
  }

  lemma FourSwapped(a: Word, b: Word, c: Word, d: Word)
    ensures Xor(a, b) < 0x1_0000_0000 && Xor(Xor(a, b), c) < 0x1_0000_0000 && Xor(Xor(Xor(a, b), c), d) < 0x1_0000_0000
    ensures Swap(Xor(Xor(Xor(a, b), c), d)) == Xor(Xor(Xor(Swap(d), Swap(c)), Swap(b)), Swap(a))
  {
    hide Xor, Swap;
    XorWord(a, b);
    SwapXor(a, b);
    XorWord(Xor(a, b), c);
    SwapXor(Xor(a, b), c);
    XorWord(Xor(Xor(a, b), c), d);
    SwapXor(Xor(Xor(a, b), c), d);
    var a', b', c', d' := Swap(a), Swap(b), Swap(c), Swap(d);
    XorCommutes(Xor(Xor(a', b'), c'), d');
    XorCommutes(Xor(a', b'), c');
    XorCommutes(a', b');
    XorAssoc(d', c', Xor(b', a'));
    XorAssoc(Xor(d', c'), b', a');
  }

  /** DOBIG4, with the word read from memory high byte first. */
  method StepBig(t: array2<Word>, d: Word, s: seq<Byte>, ghost c: Word) returns (r: Word)
    requires Tables(t) && |s| == 4 && d == Swap(c)
    ensures r == Swap(Register(c, s))
  {
    hide Xor, Low, High, Shifts, Register, Zeros, Swap, Join, Split;
    WordStepBig(c, d, s);
    var q := Split(Xor(d, Join(Quad(s[3], s[2], s[1], s[0]))));
    assert Column(t, q.b0, 4) && Entries(t, q.b0, 0) && Column(t, q.b1, 4) && Entries(t, q.b1, 1);
    assert Column(t, q.b2, 4) && Entries(t, q.b2, 2) && Column(t, q.b3, 4) && Entries(t, q.b3, 3);
    r := Xor(Xor(Xor(t[4, q.b0], t[5, q.b1]), t[6, q.b2]), t[7, q.b3]);
  }

  lemma SwapOnes(crc: Word)
    ensures Xor(Swap(crc), ONES) < 0x1_0000_0000 && Xor(crc, ONES) < 0x1_0000_0000
    ensures Xor(Swap(crc), ONES) == Swap(Xor(crc, ONES))
  {
    SwapXor(crc, ONES);
    SwapOfJoin(Quad(255, 255, 255, 255));
  }

  /** crc32_big: the same on a register kept byte-swapped. */
  method Crc32Big(t: array2<Word>, crc: Word, buf: seq<Byte>, address: nat) returns (r: Word)
    requires Tables(t)
    ensures r == Crc(crc, buf)
  {
    hide Update, Tables, Xor, Register, Swap;
    SwapOnes(crc);
    ghost var c0 := Xor(crc, ONES);
    var d, i := Xor(Swap(crc), ONES), 0;
    RegisterNone(c0, buf);
    while i < |buf| && (address + i) % 4 != 0
      invariant i <= |buf| && d == Swap(Register(c0, buf[..i]))
    {
      RegisterMore(c0, buf, i, 1);
      RegisterOne(Register(c0, buf[..i]), buf[i..i + 1]);
      d := StepByteBig(t, d, buf[i], Register(c0, buf[..i]));
      i := i + 1;
    }
    while |buf| - i >= 32
      invariant i <= |buf| && d == Swap(Register(c0, buf[..i]))
      decreases |buf| - i
    {
      var was := i;
      while i < was + 32
        invariant was <= i <= was + 32 && (i - was) % 4 == 0 && d == Swap(Register(c0, buf[..i]))
      {
        RegisterMore(c0, buf, i, 4);
        d := StepBig(t, d, buf[i..i + 4], Register(c0, buf[..i]));
        i := i + 4;
      }
    }
    while |buf| - i >= 4
      invariant i <= |buf| && d == Swap(Register(c0, buf[..i]))
      decreases |buf| - i
    {
      RegisterMore(c0, buf, i, 4);
      d := StepBig(t, d, buf[i..i + 4], Register(c0, buf[..i]));
      i := i + 4;
    }
    while i < |buf|
      invariant i <= |buf| && d == Swap(Register(c0, buf[..i]))
    {
      RegisterMore(c0, buf, i, 1);
      RegisterOne(Register(c0, buf[..i]), buf[i..i + 1]);
      d := StepByteBig(t, d, buf[i], Register(c0, buf[..i]));
      i := i + 1;
    }
    assert buf[..i] == buf;
    ghost var c := Register(c0, buf);
    SwapOnes(c);
    SwapTwice(Xor(c, ONES));
    r := Swap(Xor(d, ONES));
  }
}
