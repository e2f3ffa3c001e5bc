/** The bit stream of a compressed block: numbers as bits, high bit first, and the
    32-bit buffers of writer and reader. */
module BitStream {
  import opened Bits

  /** The n low bits of v, high bit first. */
  ghost function BitsOf(v: nat, n: nat): (s: seq<bool>)
    ensures |s| == n
  {
    if n == 0 then [] else BitsOf(v / 2, n - 1) + [v % 2 == 1]
  }

  ghost function ValueOf(s: seq<bool>): (v: nat) {
    if s == [] then 0 else 2 * ValueOf(s[..|s| - 1]) + (if s[|s| - 1] then 1 else 0)
  }

  lemma {:induction false} ValueBits(v: nat, n: nat)
    requires v < Pow2(n)
    ensures ValueOf(BitsOf(v, n)) == v
  {
    if n > 0 {
      assert BitsOf(v, n)[..n - 1] == BitsOf(v / 2, n - 1);
      ValueBits(v / 2, n - 1);
    }
  }

  lemma {:induction false} ValueBound(s: seq<bool>)
    ensures ValueOf(s) < Pow2(|s|)
  {
    if s != [] { ValueBound(s[..|s| - 1]); }
  }

  lemma {:induction false} BitsValue(s: seq<bool>)
    ensures BitsOf(ValueOf(s), |s|) == s
  {
    if s != [] {
      BitsValue(s[..|s| - 1]);
      var v := ValueOf(s[..|s| - 1]);
      assert ValueOf(s) / 2 == v;
    }
  }

  /** Upper bits, then lower bits. */
  lemma {:induction false} BitsSplit(v: nat, a: nat, b: nat)
    ensures BitsOf(v, a + b) == BitsOf(High(v, b), a) + BitsOf(Low(v, b), b)
    decreases b
  {
    if b > 0 {
      BitsSplit(v / 2, a, b - 1);
      assert BitsOf(v, a + b) == BitsOf(v / 2, a + b - 1) + [v % 2 == 1];
      var r := Low(v, b);
      assert r / 2 == Low(v / 2, b - 1) && r % 2 == v % 2;
      assert BitsOf(r, b) == BitsOf(r / 2, b - 1) + [r % 2 == 1];
    }
  }

  /** Only the low n bits count. */
  lemma {:induction false} BitsLow(v: nat, n: nat)
    ensures BitsOf(Low(v, n), n) == BitsOf(v, n)
  {
    if n > 0 {
      BitsLow(v / 2, n - 1);
      assert Low(v, n) / 2 == Low(v / 2, n - 1);
    }
  }

  ghost function BytesBits(s: seq<Byte>): (r: seq<bool>)
    ensures |r| == 8 * |s|
  {
    if s == [] then [] else BytesBits(s[..|s| - 1]) + BitsOf(s[|s| - 1], 8)
  }

  lemma {:induction false} BytesBitsConcat(s: seq<Byte>, t: seq<Byte>)
    ensures BytesBits(s + t) == BytesBits(s) + BytesBits(t)
  {
    if t == [] {
      assert s + t == s;
    } else {
      var k := |t| - 1;
      BytesBitsConcat(s, t[..k]);
      assert (s + t)[..|s + t| - 1] == s + t[..k];
    }
  }

  lemma BytesBitsFirst(s: seq<Byte>)
    requires s != []
    ensures BytesBits(s) == BitsOf(s[0], 8) + BytesBits(s[1..])
  {
    assert s == [s[0]] + s[1..];
    BytesBitsConcat([s[0]], s[1..]);
    assert [s[0]][..0] == [];
    assert BytesBits([s[0]]) == BitsOf(s[0], 8);
  }

  // ---- writing ----

  /** The writer's buffer: live bits on the left, zeros to the right. */
  ghost predicate Buffered(buff: int, live: int, x: nat) {
    0 <= live <= 32 && x < Pow2(live) && buff == x * Pow2(32 - live)
  }

  lemma TopByte(buff: int, live: int, x: nat)
    requires Buffered(buff, live, x) && live >= 8
    ensures 0 <= buff < 0x1_0000_0000
    ensures buff / 0x100_0000 == High(x, live - 8) < 256
    ensures Buffered(buff * 256 % 0x1_0000_0000, live - 8, Low(x, live - 8))
  {
    hide Pow2, High, Low;
    Pow2Constants();
    var l := live - 8;
    var q, r, p, u := High(x, l), Low(x, l), Pow2(l), Pow2(32 - live);
    HighLow(x, l);
    Pow2Add(8, l);
    QuotientBound(q, r, 256, p);
    Pow2Add(l, 32 - live);
    MulBound(r, p, u);
    Regroup(q, r, p, u);
    TopParts(buff, q, r * u);
    Pow2Add(32 - live, 8);
    Reassoc(r, u);
  }

  lemma TopParts(buff: int, q: nat, r: nat)
    requires buff == q * 0x100_0000 + r && r < 0x100_0000 && q < 256
    ensures 0 <= buff < 0x1_0000_0000 && buff / 0x100_0000 == q && buff * 256 % 0x1_0000_0000 == r * 256
  {
    assert buff * 256 == q * 0x1_0000_0000 + r * 256;
  }

  lemma QuotientBound(q: nat, r: nat, a: nat, d: nat)
    requires d > 0 && q * d + r < a * d
    ensures q < a
  {
    if q >= a { MulMono(a, q, d); }
  }

  lemma MulBound(r: nat, p: nat, u: nat)
    requires r < p && u > 0
    ensures 0 <= r * u < p * u
  {
    MulMono(r + 1, p, u);
    assert (r + 1) * u == r * u + u;
  }

  lemma Regroup(q: int, r: int, p: int, u: int)
    ensures (q * p + r) * u == q * (p * u) + r * u
  {
  }

  lemma Reassoc(r: int, u: int)
    ensures r * u * 256 == r * (u * 256)
  {
  }

  /** Adding n bits on the right of the live ones. */
  lemma OrIn(buff: nat, live: int, x: nat, n: nat, v: nat)
    requires Buffered(buff, live, x) && live + n <= 32 && v < Pow2(n)
    ensures v * Pow2(32 - live - n) < 0x1_0000_0000
    ensures BitOr(buff, v * Pow2(32 - live - n)) == (x * Pow2(n) + v) * Pow2(32 - live - n)
    ensures Buffered(BitOr(buff, v * Pow2(32 - live - n)), live + n, x * Pow2(n) + v)
  {
    hide BitOr;
    Pow2Constants();
    var u := Pow2(32 - live - n);
    Pow2Add(n, 32 - live - n);
    MulBound(v, Pow2(n), u);
    Pow2Monotone(32 - live, 32);
    BitOrDisjoint(x, v * u, 32 - live);
    Regroup(x, v, Pow2(n), u);
    Pow2Add(live, n);
    MulMono(x + 1, Pow2(live), Pow2(n));
    assert (x + 1) * Pow2(n) == x * Pow2(n) + Pow2(n);
  }

  /** x, then v in n more bits. */
  lemma JoinBits(x: nat, l: nat, v: nat, n: nat)
    requires v < Pow2(n)
    ensures BitsOf(x * Pow2(n) + v, l + n) == BitsOf(x, l) + BitsOf(v, n)
  {
    hide Pow2, BitsOf;
    BitsSplit(x * Pow2(n) + v, l, n);
    PartsAre(x * Pow2(n) + v, n, x, v);
  }

  /** v << n. */
  function Shifted(v: nat, n: nat): nat { v * Pow2(n) }

  lemma PutStep(buff: nat, live: int, x: nat, n: nat, v: nat)
    requires Buffered(buff, live, x) && live < 8 && n <= 24 && v < Pow2(n)
    ensures 0 <= live && BitOr(buff, Shifted(v, 32 - live - n)) < 0x1_0000_0000
    ensures Buffered(BitOr(buff, Shifted(v, 32 - live - n)), live + n, Shifted(x, n) + v)
    ensures BitsOf(Shifted(x, n) + v, live + n) == BitsOf(x, live) + BitsOf(v, n)
  {
    hide BitsOf, BitOr, Pow2;
    BufferedRange(buff, live, x);
    OrIn(buff, live, x, n, v);
    JoinBits(x, live, v, n);
    BufferedRange(BitOr(buff, v * Pow2(32 - live - n)), live + n, x * Pow2(n) + v);
  }

  /** A number of 32 bits, a byte at a time. */
  lemma FourBytes(u: nat)
    requires u < 0x1_0000_0000
    ensures BitsOf(u, 32) == BitsOf(u / 0x100_0000, 8) + BitsOf(u / 0x1_0000 % 256, 8) + BitsOf(u / 256 % 256, 8)
            + BitsOf(u % 256, 8)
  {
    hide BitsOf, Pow2, High, Low;
    Pow2Constants();
    BitsSplit(u, 24, 8);
    PartsAre(u, 8, u / 256, u % 256);
    BitsSplit(u / 256, 16, 8);
    PartsAre(u / 256, 8, u / 256 / 256, u / 256 % 256);
    BitsSplit(u / 0x1_0000, 8, 8);
    PartsAre(u / 0x1_0000, 8, u / 0x1_0000 / 256, u / 0x1_0000 % 256);
    assert u / 256 / 256 == u / 0x1_0000 && u / 0x1_0000 / 256 == u / 0x100_0000;
  }

  class Writer {
    var zbits: seq<Byte>
    var bsBuff: Word
    var bsLive: int
    ghost var pending: nat  // the value of the live bits

    ghost predicate Valid()
      reads this
    {
      Buffered(bsBuff, bsLive, pending)
    }

    /** The bits that do not fill a byte yet. */
    ghost function Left(): seq<bool>
      reads this
      requires Valid()
    {
      BitsOf(pending, bsLive)
    }

    /** Everything written so far. */
    ghost function Written(): seq<bool>
      reads this
      requires Valid()
    {
      BytesBits(zbits) + Left()
    }

    constructor ()
      ensures Valid() && Written() == []
    {
      zbits, bsBuff, bsLive, pending := [], 0, 0, 0;
    }

    /** Moves whole bytes from the buffer to the output. */
    method NeedW()
      requires Valid()
      modifies this
      ensures Valid() && bsLive < 8 && Written() == old(Written())
    {
      hide Buffered, BitsOf;
      BufferedRange(bsBuff, bsLive, pending);
      while bsLive >= 8
        invariant Valid() && bsLive >= 0 && Written() == old(Written())
        decreases bsLive
      {
        EmitByte();
      }
    }

    method EmitByte()
      requires Valid() && bsLive >= 8
      modifies this
      ensures Valid() && bsLive == old(bsLive) - 8 && Written() == old(Written())
    {
      hide Buffered, BitsOf;
      ghost var z0 := zbits;
      TopByte(bsBuff, bsLive, pending);
      BitsSplit(pending, 8, bsLive - 8);
      var c: Byte := bsBuff / 0x100_0000;
      zbits := zbits + [c];
      assert zbits[..|zbits| - 1] == z0;
      bsBuff := bsBuff * 256 % 0x1_0000_0000;
      bsLive := bsLive - 8;
      pending := Low(pending, bsLive);
    }

    /** bsW: appends the n bits of v. */
    method Put(n: nat, v: nat)
      requires Valid() && n <= 24 && v < Pow2(n)
      modifies this
      ensures Valid() && Written() == old(Written()) + BitsOf(v, n)
    {
      hide Buffered, BitsOf, BitOr, Shifted, Pow2;
      NeedW();
      PutStep(bsBuff, bsLive, pending, n, v);
      bsBuff := BitOr(bsBuff, Shifted(v, 32 - bsLive - n));
      pending := Shifted(pending, n) + v;
      bsLive := bsLive + n;
    }

    /** bsFinishWrite: the last bits, padded with zeros to a byte. */
    method Finish()
      requires Valid()
      modifies this
      ensures old(Written()) <= BytesBits(zbits) && |BytesBits(zbits)| < |old(Written())| + 8
    {
      hide Buffered, BitsOf;
      BufferedRange(bsBuff, bsLive, pending);
      ghost var w := Written();
      while bsLive >= 8
        invariant Valid() && bsLive >= 0 && Written() == w
        decreases bsLive
      {
        EmitByte();
      }
      if bsLive > 0 {
        ghost var z0 := zbits;
        LastByte(bsBuff, bsLive, pending);
        var c: Byte := bsBuff / 0x100_0000;
        zbits := zbits + [c];
        assert zbits[..|zbits| - 1] == z0;
        bsBuff := bsBuff * 256 % 0x1_0000_0000;
        bsLive := bsLive - 8;
      }
    }
  }

  lemma BufferedRange(buff: int, live: int, x: nat)
    requires Buffered(buff, live, x)
    ensures 0 <= live <= 32 && 0 <= buff < 0x1_0000_0000
  {
    Pow2Constants();
    Pow2Add(live, 32 - live);
    MulBound(x, Pow2(live), Pow2(32 - live));
  }

  lemma LastByte(buff: int, live: int, x: nat)
    requires Buffered(buff, live, x) && 0 < live < 8
    ensures 0 <= buff / 0x100_0000 < 256 && BitsOf(x, live) <= BitsOf(buff / 0x100_0000, 8)
  {
    Pow2Constants();
    BufferedRange(buff, live, x);
    var pad := Pow2(8 - live);
    Pow2Add(8 - live, 24);
    hide BitsOf, Pow2;
    Reassociate(x, pad, 0x100_0000);
    DivisionIs(buff, 0x100_0000, x * pad, 0);
    JoinBits(x, live, 0, 8 - live);
  }

  lemma Reassociate(a: int, b: int, c: int)
    ensures a * (b * c) == a * b * c
  {
  }

  // ---- reading ----

  /** The reader's buffer: the live bits are the low ones. */
  ghost function Live(buff: Word, live: nat): (s: seq<bool>)
    ensures |s| == live
  {
    BitsOf(buff, live)
  }

  /** One more byte shifted in at the right; what falls off the left was used up. */
  lemma ShiftInByte(buff: nat, live: nat, c: Byte)
    requires buff < 0x1_0000_0000 && live <= 24
    ensures 0 <= buff * 256 % 0x1_0000_0000 && BitOr(buff * 256 % 0x1_0000_0000, c) < 0x1_0000_0000
    ensures BitsOf(BitOr(buff * 256 % 0x1_0000_0000, c), live + 8) == BitsOf(buff, live) + BitsOf(c, 8)
  {
    hide BitOr, BitsOf, Pow2, High, Low;
    Pow2Constants();
    var y := buff % 0x100_0000;
    var q := buff / 0x100_0000;
    TopParts(buff, q, y);
    BitOrDisjoint(y, c, 8);
    JoinBits(y, live, c, 8);
    LowOfSum(q, y, live);
  }

  /** Bits above the live ones do not matter. */
  lemma LowOfSum(q: nat, y: nat, n: nat)
    requires n <= 24
    ensures BitsOf(q * 0x100_0000 + y, n) == BitsOf(y, n)
  {
    hide Pow2, BitsOf, High, Low;
    Pow2Constants();
    Pow2Add(24 - n, n);
    HighLow(y, n);
    Regroup3(q, Pow2(24 - n), High(y, n), Pow2(n), Low(y, n));
    PartsAre(q * 0x100_0000 + y, n, q * Pow2(24 - n) + High(y, n), Low(y, n));
    BitsLow(y, n);
    BitsLow(q * 0x100_0000 + y, n);
  }

  lemma Regroup3(q: int, b: int, q2: int, a: int, r2: int)
    ensures q * (b * a) + (q2 * a + r2) == (q * b + q2) * a + r2
  {
  }

  /** Taking the first n of the live bits. */
  lemma TakeBits(buff: nat, live: nat, n: nat)
    requires n <= live
    ensures ValueOf(BitsOf(buff, live)[..n]) == Low(High(buff, live - n), n) < Pow2(n)
    ensures BitsOf(buff, live)[n..] == BitsOf(buff, live - n)
  {
    hide Pow2, BitsOf, ValueOf, High, Low;
    var m := live - n;
    BitsSplit(buff, n, m);
    BitsLow(buff, m);
    BitsLow(High(buff, m), n);
    HighLow(High(buff, m), n);
    ValueBits(Low(High(buff, m), n), n);
  }
}
