/** Codes read low bit first: reversing the bits of a number. */
module Reversal {
  import opened Bits

  /** The m low bits of v in reverse order. */
  function Rev(v: nat, m: nat): nat {
    if m == 0 then 0 else (if v % 2 == 1 then Pow2(m - 1) else 0) + Rev(v / 2, m - 1)
  }

  lemma {:induction false} RevBound(v: nat, m: nat)
    ensures Rev(v, m) < Pow2(m)
  {
    if m > 0 { RevBound(v / 2, m - 1); }
  }

  lemma {:induction false} RevNone(m: nat)
    ensures Rev(0, m) == 0
  {
    if m > 0 { RevNone(m - 1); }
  }

  /** The lowest bit of the reversed number is the highest of the m. */
  lemma {:induction false} RevLowest(v: nat, m: nat)
    requires m > 0
    ensures Rev(v, m) % 2 == High(v, m - 1) % 2 && Rev(v, m) / 2 == Rev(Low(v, m - 1), m - 1)
    decreases m
  {
    if m == 1 {
      assert Rev(v / 2, 0) == 0;
    } else {
      RevLowest(v / 2, m - 1);
      var p := Pow2(m - 2);
      assert Pow2(m - 1) == 2 * p;
      var r := Rev(v / 2, m - 1);
      LowHalves(v, m - 1);
      assert Rev(Low(v, m - 1), m - 1) == (if v % 2 == 1 then p else 0) + Rev(Low(v / 2, m - 2), m - 2);
      assert Rev(v, m) == 2 * (if v % 2 == 1 then p else 0) + r;
    }
  }

  lemma BitTimes(d: nat, p: nat)
    ensures d * (2 * p) == 2 * (d * p)
  {
  }

  lemma RevStep(v: nat, m: nat)
    requires m > 0
    ensures Rev(v, m) == (if v % 2 == 1 then Pow2(m - 1) else 0) + Rev(v / 2, m - 1) && Pow2(m) == 2 * Pow2(m - 1)
  {
  }

  lemma {:induction false} RevTwice(v: nat, m: nat)
    requires v < Pow2(m)
    ensures Rev(Rev(v, m), m) == v
    decreases m
  {
    if m == 0 {
      assert v == 0;
    } else {
      hide Rev, High, Low, Pow2;
      var h, l, p := High(v, m - 1), Low(v, m - 1), Pow2(m - 1);
      RevStep(v, m);
      RevLowest(v, m);
      HighLow(v, m - 1);
      TopBit(h, l, p, v);
      RevTwice(l, m - 1);
      RevStep(Rev(v, m), m);
      OneOrNone(h, p);
    }
  }

  lemma OneOrNone(h: nat, p: nat)
    requires h < 2
    ensures h * p == (if h % 2 == 1 then p else 0)
  {
  }

  lemma TopBit(h: nat, l: nat, p: nat, v: nat)
    requires v == h * p + l && v < 2 * p && p > 0
    ensures h < 2
  {
    if h >= 2 { MulMono(2, h, p); }
  }

  /** The low l bits of the reversed number are the high l bits, reversed. */
  lemma {:induction false} RevLow(v: nat, m: nat, l: nat)
    requires l <= m
    ensures Low(Rev(v, m), l) == Rev(High(v, m - l), l)
    decreases m
  {
    if l == m {
      RevBound(v, m);
      LowSmall(Rev(v, m), m);
    } else {
      RevLow(v / 2, m - 1, l);
      LowTop(if v % 2 == 1 then 1 else 0, Rev(v / 2, m - 1), m - 1, l);
    }
  }

  lemma {:induction false} LowSmall(v: nat, n: nat)
    requires v < Pow2(n)
    ensures Low(v, n) == v && High(v, n) == 0
  {
    if n > 0 { LowSmall(v / 2, n - 1); }
  }

  /** Bits at or above position n do not show in the low l <= n. */
  lemma LowTop(d: nat, r: nat, n: nat, l: nat)
    requires l <= n
    ensures Low(d * Pow2(n) + r, l) == Low(r, l)
  {
    hide Low, High, Pow2;
    Pow2Add(n - l, l);
    HighLow(r, l);
    var a, p := Pow2(n - l), Pow2(l);
    MulMono(0, d, a);
    Stacked(d, a, p, High(r, l), Low(r, l));
    PartsAre(d * Pow2(n) + r, l, d * a + High(r, l), Low(r, l));
  }

  lemma Stacked(d: nat, a: nat, p: nat, h: nat, r: nat)
    ensures d * (a * p) + (h * p + r) == (d * a + h) * p + r
  {
    assert (d * a + h) * p == d * a * p + h * p;
  }

  /** A multiple of 2^(m - l), reversed, fits in l bits. */
  lemma {:induction false} RevMultiple(c: nat, m: nat, l: nat)
    requires l <= m
    ensures Rev(c * Pow2(m - l), m) == Rev(c, l)
    decreases m - l
  {
    if l < m {
      var p := Pow2(m - 1 - l);
      BitTimes(c, p);
      assert c * Pow2(m - l) == 2 * (c * p);
      RevMultiple(c, m - 1, l);
    }
  }

  /** Different numbers have different reversals. */
  lemma RevInjective(u: nat, v: nat, m: nat)
    requires u < Pow2(m) && v < Pow2(m) && Rev(u, m) == Rev(v, m)
    ensures u == v
  {
    RevTwice(u, m);
    RevTwice(v, m);
  }

  // ---- adding one, backwards ----

  /** Counting up in reversed bits: ones at the top become zeros, the first zero a one. */
  function Next(h: nat, n: nat): nat {
    if n == 0 then 0
    else if h >= Pow2(n - 1) then Next(h - Pow2(n - 1), n - 1)
    else h + Pow2(n - 1)
  }

  lemma {:induction false} NextRev(c: nat, n: nat)
    requires c < Pow2(n)
    ensures Next(Rev(c, n), n) == if c + 1 == Pow2(n) then 0 else Rev(c + 1, n)
  {
    if n > 0 {
      RevBound(c / 2, n - 1);
      var p := Pow2(n - 1);
      assert Pow2(n) == 2 * p;
      if c % 2 == 1 {
        NextRev(c / 2, n - 1);
        assert (c + 1) / 2 == c / 2 + 1;
      } else {
        assert (c + 1) / 2 == c / 2;
      }
      hide Pow2;
    }
  }

  /** The source's loop: incr walks down past the ones. */
  method BackwardIncrement(huff0: nat, len: nat) returns (huff: nat)
    requires len > 0 && huff0 < Pow2(len)
    ensures huff == Next(huff0, len)
  {
    var pos := len - 1;
    ghost var h := huff0;
    hide Low, High, Pow2;
    LowSmallAll(huff0, len);
    while pos >= 0 && High(huff0, pos) % 2 == 1
      invariant -1 <= pos < len && h == Low(huff0, pos + 1) && Next(h, pos + 1) == Next(huff0, len)
      decreases pos
    {
      SplitBit(huff0, pos);
      assert High(huff0, pos) % 2 * Pow2(pos) == Pow2(pos);
      h := h - Pow2(pos);
      pos := pos - 1;
    }
    if pos >= 0 {
      SplitBit(huff0, pos);
      assert High(huff0, pos) % 2 * Pow2(pos) == 0;
      huff := Low(huff0, pos) + Pow2(pos);
    } else {
      huff := 0;
    }
  }

  lemma LowSmallAll(v: nat, n: nat)
    requires v < Pow2(n)
    ensures Low(v, n) == v
  {
    LowSmall(v, n);
  }

  /** Bit k above the k bits below it. */
  lemma {:induction false} SplitBit(v: nat, k: nat)
    ensures Low(v, k + 1) == High(v, k) % 2 * Pow2(k) + Low(v, k) && Low(v, k) < Pow2(k)
    decreases k
  {
    HighLow(v, k);
    if k > 0 {
      SplitBit(v / 2, k - 1);
      BitTimes(High(v, k) % 2, Pow2(k - 1));
    }
  }

  // ---- matching ----

  /** x begins (low bits first) with the l-bit code whose left-aligned value is c * 2^(m - l)
      exactly when the reversal of x lies in that code's stretch of the code space. */
  lemma Matches(x: nat, c: nat, m: nat, l: nat)
    requires l <= m && x < Pow2(m) && c < Pow2(l)
    ensures Low(x, l) == Rev(c, l) <==> c * Pow2(m - l) <= Rev(x, m) < (c + 1) * Pow2(m - l)
  {
    hide Low, High, Rev, Pow2;
    var v := Rev(x, m);
    RevTwice(x, m);
    RevBound(x, m);
    RevLow(v, m, l);
    HighLow(v, m - l);
    var h, r, p := High(v, m - l), Low(v, m - l), Pow2(m - l);
    Pow2Add(l, m - l);
    QuotientSmall(h, r, Pow2(l), p);
    if Rev(h, l) == Rev(c, l) { RevInjective(h, c, l); }
    Within(h, r, c, p);
  }

  lemma QuotientSmall(h: nat, r: nat, a: nat, p: nat)
    requires h * p + r < a * p && p > 0
    ensures h < a
  {
    if h >= a { MulMono(a, h, p); }
  }

  lemma Within(h: nat, r: nat, c: nat, p: nat)
    requires r < p
    ensures h == c <==> c * p <= h * p + r < (c + 1) * p
  {
    assert (c + 1) * p == c * p + p && (h + 1) * p == h * p + p;
    if h < c { MulMono(h + 1, c, p); }
    if h > c { MulMono(c + 1, h, p); }
  }

  /** v << i. */
  function Raised(v: nat, i: nat): (r: nat)
    ensures r == v * Pow2(i)
  {
    MulMono(0, v, Pow2(i));
    v * Pow2(i)
  }
}
