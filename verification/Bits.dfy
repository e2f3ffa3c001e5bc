/** Machine words as naturals: powers of two, single bits, bitwise or. */
module Bits {
  type Byte = x: int | 0 <= x < 256
  type Word = x: int | 0 <= x < 0x1_0000_0000
  type Half = x: int | 0 <= x < 0x1_0000

  function Pow2(n: nat): (r: nat)
    ensures 1 <= r
  {
    if n == 0 then 1 else 2 * Pow2(n - 1)
  }

  lemma {:induction false} Pow2Add(a: nat, b: nat)
    ensures Pow2(a + b) == Pow2(a) * Pow2(b)
  {
    if a == 0 {
    } else {
      Pow2Add(a - 1, b);
    }
  }

  lemma {:induction false} Pow2Monotone(a: nat, b: nat)
    requires a <= b
    ensures Pow2(a) <= Pow2(b)
  {
    if a < b {
      Pow2Monotone(a, b - 1);
    }
  }

  lemma Pow2Constants()
    ensures Pow2(4) == 16 && Pow2(5) == 32 && Pow2(8) == 256 && Pow2(15) == 0x8000 && Pow2(16) == 0x1_0000
    ensures Pow2(24) == 0x100_0000 && Pow2(31) == 0x8000_0000 && Pow2(32) == 0x1_0000_0000
  {
    assert Pow2(4) == 16 && Pow2(5) == 32 && Pow2(8) == 256;
    Pow2Add(8, 8);
    Pow2Add(16, 8);
    Pow2Add(16, 16);
    assert Pow2(16) == 2 * Pow2(15) && Pow2(32) == 2 * Pow2(31);
  }

  lemma Pow2Zero()
    ensures Pow2(0) == 1
  {
  }

  lemma Pow2Next(n: nat)
    ensures Pow2(n + 1) == 2 * Pow2(n)
  {
  }

  lemma MulMono(a: int, b: int, p: int)
    requires a <= b && p >= 0
    ensures a * p <= b * p
  {
    var k := b - a;
    assert b * p == a * p + k * p;
  }

  lemma SumTimes(a: int, b: int, p: int)
    ensures (a + b) * p == a * p + b * p
  {
  }

  /** A word of two halves. */
  function TwoHalves(lo: nat, hi: nat): nat { hi * 0x1_0000 + lo }

  /** Bit i of w. */
  predicate BitOf(w: nat, i: nat) {
    if i == 0 then w % 2 == 1 else BitOf(w / 2, i - 1)
  }

  /** Bitwise or of two naturals, bit by bit. */
  function BitOr(a: nat, b: nat): nat {
    if a == 0 && b == 0 then 0
    else 2 * BitOr(a / 2, b / 2) + (if a % 2 == 1 || b % 2 == 1 then 1 else 0)
  }

  /** Bitwise and-not (a & ~b), bit by bit. */
  function BitAndNot(a: nat, b: nat): nat {
    if a == 0 then 0
    else 2 * BitAndNot(a / 2, b / 2) + (if a % 2 == 1 && b % 2 == 0 then 1 else 0)
  }

  /** Bitwise and, bit by bit. */
  function BitAnd(a: nat, b: nat): (r: nat)
    ensures r <= a && r <= b
  {
    if a == 0 || b == 0 then 0
    else 2 * BitAnd(a / 2, b / 2) + (if a % 2 == 1 && b % 2 == 1 then 1 else 0)
  }

  lemma {:induction false} ZeroHasNoBits(i: nat)
    ensures !BitOf(0, i)
  {
    if i > 0 { ZeroHasNoBits(i - 1); }
  }

  lemma {:induction false} BitOrBits(a: nat, b: nat, i: nat)
    ensures BitOf(BitOr(a, b), i) <==> BitOf(a, i) || BitOf(b, i)
  {
    hide BitOr;
    BitOrParts(a, b);
    if i > 0 { BitOrBits(a / 2, b / 2, i - 1); }
  }

  lemma BitOrParts(a: nat, b: nat)
    ensures BitOr(a, b) / 2 == BitOr(a / 2, b / 2)
    ensures BitOr(a, b) % 2 == 1 <==> a % 2 == 1 || b % 2 == 1
  {
  }

  lemma {:induction false} BitAndNotBits(a: nat, b: nat, i: nat)
    ensures BitOf(BitAndNot(a, b), i) <==> BitOf(a, i) && !BitOf(b, i)
  {
    if a == 0 {
      ZeroHasNoBits(i);
    } else if i > 0 {
      BitAndNotBits(a / 2, b / 2, i - 1);
      assert BitAndNot(a, b) / 2 == BitAndNot(a / 2, b / 2);
    }
  }

  lemma {:induction false} Pow2Bits(k: nat, i: nat)
    ensures BitOf(Pow2(k), i) <==> i == k
  {
    if i == 0 || k == 0 {
      if i > 0 { ZeroHasNoBits(i - 1); }
    } else {
      Pow2Bits(k - 1, i - 1);
      assert Pow2(k) / 2 == Pow2(k - 1);
    }
  }

  /** or-ing words below 2^n stays below 2^n. */
  lemma {:induction false} BitOrBound(a: nat, b: nat, n: nat)
    requires a < Pow2(n) && b < Pow2(n)
    ensures BitOr(a, b) < Pow2(n)
  {
    if n > 0 && (a != 0 || b != 0) {
      BitOrBound(a / 2, b / 2, n - 1);
    }
  }

  lemma {:induction false} BitAndNotBound(a: nat, b: nat)
    ensures BitAndNot(a, b) <= a
  {
    if a > 0 { BitAndNotBound(a / 2, b / 2); }
  }

  /** Where the set bits cannot meet, or is addition. */
  lemma {:induction false} BitOrDisjoint(a: nat, b: nat, n: nat)
    requires b < Pow2(n)
    ensures BitOr(a * Pow2(n), b) == a * Pow2(n) + b
  {
    if n == 0 {
      BitOrZero(a);
    } else if a == 0 {
      BitOrZero(b);
      BitOrCommutes(0, b);
    } else {
      var x := a * Pow2(n);
      assert x == 2 * (a * Pow2(n - 1));
      assert x / 2 == a * Pow2(n - 1) && x % 2 == 0;
      BitOrDisjoint(a, b / 2, n - 1);
    }
  }

  lemma {:induction false} BitOrZero(a: nat)
    ensures BitOr(a, 0) == a
  {
    if a > 0 { BitOrZero(a / 2); }
  }

  lemma {:induction false} BitOrCommutes(a: nat, b: nat)
    ensures BitOr(a, b) == BitOr(b, a)
  {
    if a != 0 || b != 0 { BitOrCommutes(a / 2, b / 2); }
  }

  lemma {:induction false} OnesBits(n: nat, i: nat)
    requires i < n
    ensures BitOf(Pow2(n) - 1, i)
  {
    assert (Pow2(n) - 1) / 2 == Pow2(n - 1) - 1;
    if i > 0 { OnesBits(n - 1, i - 1); }
  }

  // ---- shifts and masks ----

  /** v >> b. */
  function High(v: nat, b: nat): nat {
    if b == 0 then v else High(v / 2, b - 1)
  }

  lemma NoShift(v: nat)
    ensures High(v, 0) == v
  {
  }

  /** v & (2^b - 1). */
  function Low(v: nat, b: nat): nat {
    if b == 0 then 0 else 2 * Low(v / 2, b - 1) + v % 2
  }

  lemma {:induction false} HighLow(v: nat, b: nat)
    ensures v == High(v, b) * Pow2(b) + Low(v, b) && Low(v, b) < Pow2(b)
  {
    if b > 0 {
      HighLow(v / 2, b - 1);
      Doubled(High(v, b), Pow2(b - 1));
    }
  }

  lemma {:induction false} HighHigh(c: nat, m: nat, n: nat)
    ensures High(High(c, m), n) == High(c, m + n)
    decreases m
  {
    if m > 0 { HighHigh(c / 2, m - 1, n); }
  }

  lemma Doubled(q: int, p: int)
    ensures 2 * (q * p) == q * (2 * p)
  {
  }

  /** High and low parts are determined by v. */
  lemma PartsAre(v: nat, b: nat, q: nat, r: nat)
    requires v == q * Pow2(b) + r && r < Pow2(b)
    ensures High(v, b) == q && Low(v, b) == r
  {
    hide Pow2;
    HighLow(v, b);
    var h, l, d := High(v, b), Low(v, b), Pow2(b);
    DivisionIs(v, d, q, r);
    DivisionIs(v, d, h, l);
  }

  lemma LowBelow(x: nat, n: nat)
    ensures Low(x, n) < Pow2(n)
  {
    HighLow(x, n);
  }

  lemma DivisionIs(v: int, d: int, q: int, r: int)
    requires d > 0 && v == q * d + r && 0 <= r < d
    ensures v / d == q && v % d == r
  {
    QuotientUnique(v / d - q, d, r - v % d);
  }

  lemma QuotientUnique(k: int, d: int, e: int)
    requires d > 0 && k * d == e && -d < e < d
    ensures k == 0
  {
    if k >= 1 { MulAtLeast(k, d); }
    if k <= -1 { MulAtLeast(-k, d); }
  }

  lemma MulAtLeast(k: int, d: int)
    requires k >= 1 && d > 0
    ensures k * d >= d
  {
  }

  // ---- exclusive or ----

  /** a ^ b. */
  function Xor(a: nat, b: nat): nat {
    if a == 0 && b == 0 then 0
    else 2 * Xor(a / 2, b / 2) + (a % 2 + b % 2) % 2
  }

  lemma {:induction false} XorCommutes(a: nat, b: nat)
    ensures Xor(a, b) == Xor(b, a)
  {
    if a != 0 || b != 0 { XorCommutes(a / 2, b / 2); }
  }

  lemma {:induction false} XorZero(a: nat)
    ensures Xor(a, 0) == a && Xor(0, a) == a
  {
    if a != 0 { XorZero(a / 2); }
  }

  lemma {:induction false} XorSelf(a: nat)
    ensures Xor(a, a) == 0
  {
    if a != 0 { XorSelf(a / 2); }
  }

  lemma XorParts(a: nat, b: nat)
    ensures Xor(a, b) / 2 == Xor(a / 2, b / 2) && Xor(a, b) % 2 == (a % 2 + b % 2) % 2
  {
  }

  lemma SameHalves(x: nat, y: nat)
    requires x / 2 == y / 2 && x % 2 == y % 2
    ensures x == y
  {
  }

  lemma ParityAssoc(x: nat, y: nat, z: nat)
    requires x < 2 && y < 2 && z < 2
    ensures ((x + y) % 2 + z) % 2 == (x + (y + z) % 2) % 2
  {
  }

  function Parity(x: nat, y: nat): (r: nat)
    ensures r < 2
  {
    (x + y) % 2
  }

  lemma LowestXor(a: nat, b: nat)
    ensures Xor(a, b) % 2 == Parity(a % 2, b % 2)
  {
    hide Xor;
    XorParts(a, b);
  }

  lemma ParityThree(a: nat, b: nat, c: nat)
    ensures Parity(Parity(a % 2, b % 2), c % 2) == Parity(a % 2, Parity(b % 2, c % 2))
  {
    ParityAssoc(a % 2, b % 2, c % 2);
  }

  lemma XorAssocStep(a: nat, b: nat, c: nat)
    requires Xor(Xor(a / 2, b / 2), c / 2) == Xor(a / 2, Xor(b / 2, c / 2))
    ensures Xor(Xor(a, b), c) == Xor(a, Xor(b, c))
  {
    hide Xor, Parity;
    var l, r := Xor(Xor(a, b), c), Xor(a, Xor(b, c));
    assert l / 2 == r / 2 by {
      XorParts(a, b);
      XorParts(b, c);
      XorParts(Xor(a, b), c);
      XorParts(a, Xor(b, c));
    }
    assert l % 2 == r % 2 by {
      LowestXor(a, b);
      LowestXor(b, c);
      LowestXor(Xor(a, b), c);
      LowestXor(a, Xor(b, c));
      ParityThree(a, b, c);
    }
    SameHalves(l, r);
  }

  lemma {:induction false} XorAssoc(a: nat, b: nat, c: nat)
    ensures Xor(Xor(a, b), c) == Xor(a, Xor(b, c))
    decreases a + b + c
  {
    if a == 0 && b == 0 && c == 0 {
    } else {
      XorAssoc(a / 2, b / 2, c / 2);
      XorAssocStep(a, b, c);
    }
  }

  /** (a ^ b) ^ (c ^ d) regrouped. */
  lemma XorSwap(a: nat, b: nat, c: nat, d: nat)
    ensures Xor(Xor(a, b), Xor(c, d)) == Xor(Xor(a, c), Xor(b, d))
  {
    hide Xor;
    XorAssoc(a, b, Xor(c, d));
    XorAssoc(b, c, d);
    XorCommutes(b, c);
    XorAssoc(c, b, d);
    XorAssoc(a, c, Xor(b, d));
  }

  lemma {:induction false} XorBound(a: nat, b: nat, n: nat)
    requires a < Pow2(n) && b < Pow2(n)
    ensures Xor(a, b) < Pow2(n)
  {
    if n > 0 && (a != 0 || b != 0) { XorBound(a / 2, b / 2, n - 1); }
  }

  lemma XorWord(a: Word, b: Word)
    ensures Xor(a, b) < 0x1_0000_0000
  {
    Pow2Constants();
    hide Xor, Pow2;
    XorBound(a, b, 32);
  }

  lemma {:induction false} XorHigh(a: nat, b: nat, n: nat)
    ensures High(Xor(a, b), n) == Xor(High(a, n), High(b, n))
    decreases n
  {
    if n > 0 {
      XorParts(a, b);
      XorHigh(a / 2, b / 2, n - 1);
    }
  }

  lemma {:induction false} XorLow(a: nat, b: nat, n: nat)
    ensures Low(Xor(a, b), n) == Xor(Low(a, n), Low(b, n))
    decreases n
  {
    if n > 0 {
      XorLow(a / 2, b / 2, n - 1);
      hide Xor;
      XorParts(a, b);
      var x, y := Low(a, n), Low(b, n);
      LowHalves(a, n);
      LowHalves(b, n);
      LowHalves(Xor(a, b), n);
      XorParts(x, y);
      SameHalves(Low(Xor(a, b), n), Xor(x, y));
    }
  }

  lemma LowHalves(v: nat, n: nat)
    requires n > 0
    ensures Low(v, n) / 2 == Low(v / 2, n - 1) && Low(v, n) % 2 == v % 2
  {
  }

  lemma {:induction false} XorScale(a: nat, b: nat, n: nat)
    ensures Xor(a * Pow2(n), b * Pow2(n)) == Xor(a, b) * Pow2(n)
  {
    hide Xor, Pow2;
    Pow2Zero();
    if n > 0 {
      XorScale(a, b, n - 1);
      var p := Pow2(n - 1);
      Pow2Next(n - 1);
      Doubled(a, p);
      Doubled(b, p);
      Doubled(Xor(a, b), p);
      XorDouble(a * p, b * p);
    }
  }

  lemma XorDouble(a: nat, b: nat)
    ensures Xor(2 * a, 2 * b) == 2 * Xor(a, b)
  {
    XorParts(2 * a, 2 * b);
  }

  lemma XorEven(q: nat, b: nat)
    ensures Xor(2 * q, b) == 2 * Xor(q, b / 2) + b % 2
  {
  }

  /** Where the set bits cannot meet, exclusive or is addition. */
  lemma {:induction false} XorDisjoint(a: nat, b: nat, n: nat)
    requires b < Pow2(n)
    ensures Xor(a * Pow2(n), b) == a * Pow2(n) + b
  {
    if n == 0 {
      XorZero(a);
    } else {
      var p := Pow2(n - 1);
      XorDisjoint(a, b / 2, n - 1);
      Doubled(a, p);
      assert Pow2(n) == 2 * p;
      hide Xor, Pow2;
      XorEven(a * p, b);
    }
  }

  /** Exclusive or of numbers with a high and a low part goes by parts. */
  lemma XorStacked(h1: nat, l1: nat, h2: nat, l2: nat, n: nat)
    requires l1 < Pow2(n) && l2 < Pow2(n)
    ensures Xor(h1 * Pow2(n) + l1, h2 * Pow2(n) + l2) == Xor(h1, h2) * Pow2(n) + Xor(l1, l2) && Xor(l1, l2) < Pow2(n)
  {
    hide Xor, Pow2;
    XorDisjoint(h1, l1, n);
    XorDisjoint(h2, l2, n);
    XorSwap(h1 * Pow2(n), l1, h2 * Pow2(n), l2);
    XorScale(h1, h2, n);
    XorBound(l1, l2, n);
    XorDisjoint(Xor(h1, h2), Xor(l1, l2), n);
  }

  lemma {:induction false} XorBits(a: nat, b: nat, i: nat)
    ensures BitOf(Xor(a, b), i) <==> BitOf(a, i) != BitOf(b, i)
    decreases i
  {
    XorParts(a, b);
    if i > 0 {
      hide Xor;
      XorBits(a / 2, b / 2, i - 1);
    }
  }

  /** Turning over all bits is exclusive or with ones. */
  lemma {:induction false} XorOnes(a: nat, n: nat)
    requires a < Pow2(n)
    ensures Xor(a, Pow2(n) - 1) == Pow2(n) - 1 - a
  {
    hide Xor, Pow2;
    Pow2Zero();
    if n == 0 {
      XorZero(0);
    } else {
      Pow2Next(n - 1);
      XorOnes(a / 2, n - 1);
      XorParts(a, 2 * Pow2(n - 1) - 1);
    }
  }
}
