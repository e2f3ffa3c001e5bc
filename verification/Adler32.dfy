/** Adler-32 of section 2.2 of RFC 1950: sums reduced late, reduction without division,
    and the checksum of a concatenation. */
module Adler32 {
  import opened Bits
  import opened Reversal

  const BASE := 65521
  const NMAX := 5552

  /** The two sums, each modulo BASE after every byte. */
  datatype Sums = Sums(a: nat, b: nat)

  ghost predicate Reduced(s: Sums) { s.a < BASE && s.b < BASE }

  ghost function AddByte(s: Sums, c: Byte): (r: Sums)
    ensures Reduced(r)
  {
    Sums((s.a + c) % BASE, (s.b + (s.a + c) % BASE) % BASE)
  }

  ghost function AddAll(s: Sums, buf: seq<Byte>): (r: Sums)
    requires Reduced(s)
    ensures Reduced(r)
  {
    if buf == [] then s else AddByte(AddAll(s, buf[..|buf| - 1]), buf[|buf| - 1])
  }

  function Pack(s: Sums): Word
    requires s.a < 0x1_0000 && s.b < 0x1_0000
  {
    s.b * 0x1_0000 + s.a
  }

  function Unpack(adler: Word): (s: Sums)
    ensures s.a < 0x1_0000 && s.b < 0x1_0000
  {
    Sums(adler % 0x1_0000, adler / 0x1_0000)
  }

  lemma PackUnpack(s: Sums)
    requires s.a < 0x1_0000 && s.b < 0x1_0000
    ensures Unpack(Pack(s)) == s
  {
    DivisionIs(Pack(s), 0x1_0000, s.b, s.a);
  }

  // ---- remainders ----

  lemma SameRemainder(x: int, y: int, k: int)
    requires x == y + k * BASE
    ensures x % BASE == y % BASE
  {
    DivisionIs(x, BASE, y / BASE + k, y % BASE);
  }

  lemma ModTwice(x: int, y: int)
    ensures (x % BASE + y) % BASE == (x + y) % BASE
  {
    SameRemainder(x + y, x % BASE + y, x / BASE);
  }

  /** x >> 16 stands for 15 each, as 65536 is 15 more than BASE. */
  function Chop(x: nat): nat {
    x % 0x1_0000 + (x / 0x1_0000 * 16 - x / 0x1_0000)
  }

  lemma ChopKeeps(x: nat)
    ensures Chop(x) % BASE == x % BASE
  {
    SameRemainder(x, Chop(x), x / 0x1_0000);
  }

  /** MOD28 without division. */
  function Mod28(x: nat): (r: nat)
    requires x < 0x1000_0000
    ensures r == x % BASE
  {
    ChopKeeps(x);
    var y := Chop(x);
    if y >= BASE then y - BASE else y
  }

  /** MOD without division, for any word. */
  function Mod(x: Word): (r: nat)
    ensures r == x % BASE
  {
    ChopKeeps(x);
    Mod28(Chop(x))
  }

  /** MOD63 without division, for any length that fits 63 bits. */
  function Mod63(x: nat): (r: nat)
    requires x < 0x8000_0000_0000_0000
    ensures r == x % BASE
  {
    var t := x / 0x1_0000_0000;
    var y := x % 0x1_0000_0000 + (t * 256 - t * 32 + t);
    SameRemainder(x, y, t * 65551);
    ChopKeeps(y);
    ChopKeeps(Chop(y));
    var z := Chop(Chop(y));
    if z >= BASE then z - BASE else z
  }

  // ---- how far the sums grow ----

  /** The largest second sum after n bytes without reduction. */
  function Bound(n: nat): nat {
    if n == 0 then BASE - 1 else Bound(n - 1) + (BASE - 1) + 255 * n
  }

  lemma {:induction false} BoundIs(n: nat)
    ensures 2 * Bound(n) == 255 * (n * (n + 1)) + 2 * ((n + 1) * (BASE - 1))
  {
    if n > 0 {
      BoundIs(n - 1);
      assert n * (n + 1) == (n - 1) * n + 2 * n;
    }
  }

  lemma {:induction false} BoundMono(m: nat, n: nat)
    requires m <= n
    ensures Bound(m) <= Bound(n)
  {
    if m < n { BoundMono(m, n - 1); }
  }

  /** NMAX is the largest number of bytes whose sums surely fit a word. */
  lemma NmaxIsLargest(n: nat)
    ensures n <= NMAX <==> Bound(n) <= 0xffff_ffff
  {
    BoundIs(NMAX);
    BoundIs(NMAX + 1);
    hide Bound;
    if n <= NMAX { BoundMono(n, NMAX); } else { BoundMono(NMAX + 1, n); }
  }

  /** Sums that have taken n bytes since they were last reduced. */
  ghost predicate Running(adler: nat, sum2: nat, n: nat, s: Sums) {
    && adler <= BASE - 1 + 255 * n && sum2 <= Bound(n)
    && adler % BASE == s.a && sum2 % BASE == s.b
  }

  lemma RunningStep(adler: nat, sum2: nat, n: nat, s: Sums, c: Byte)
    requires Running(adler, sum2, n, s)
    ensures Running(adler + c, sum2 + adler + c, n + 1, AddByte(s, c))
    ensures n < NMAX ==> adler + c <= 0xffff_ffff && sum2 + adler + c <= 0xffff_ffff
  {
    ModTwice(adler, c);
    var a := adler + c;
    ModTwice(sum2, a);
    ModTwice(a, sum2 % BASE);
    assert sum2 % BASE + a % BASE == a % BASE + sum2 % BASE;
    NmaxIsLargest(n + 1);
    assert Bound(n + 1) == Bound(n) + (BASE - 1) + 255 * (n + 1);
  }

  lemma AddLast(s: Sums, buf: seq<Byte>, i: nat)
    requires Reduced(s) && i < |buf|
    ensures AddAll(s, buf[..i + 1]) == AddByte(AddAll(s, buf[..i]), buf[i])
  {
    assert buf[..i + 1][..i] == buf[..i];
  }

  lemma ReducedRuns(s: Sums)
    requires Reduced(s)
    ensures Running(s.a, s.b, 0, s)
  {
  }

  /** n bytes without a reduction. */
  method Accumulate(adler0: Word, sum0: Word, buf: seq<Byte>, from: nat, n: nat, ghost before: nat, ghost s: Sums)
    returns (adler: Word, sum2: Word)
    requires from + n <= |buf| && before + n <= NMAX && Reduced(s)
             && Running(adler0, sum0, before, AddAll(s, buf[..from]))
    ensures Running(adler, sum2, before + n, AddAll(s, buf[..from + n]))
  {
    hide Running, AddByte;
    adler, sum2 := adler0, sum0;
    for i := 0 to n
      invariant Running(adler, sum2, before + i, AddAll(s, buf[..from + i]))
    {
      RunningStep(adler, sum2, before + i, AddAll(s, buf[..from + i]), buf[from + i]);
      AddLast(s, buf, from + i);
      adler := adler + buf[from + i];
      sum2 := sum2 + adler;
    }
  }

  lemma RunningEnds(adler: nat, sum2: nat, n: nat, s: Sums)
    requires Running(adler, sum2, n, s)
    ensures adler % BASE == s.a && sum2 % BASE == s.b && (n < 16 ==> adler < 2 * BASE && sum2 < 0x1000_0000)
    ensures n == 0 ==> adler == s.a && sum2 == s.b
  {
    if n < 16 {
      BoundMono(n, 15);
      BoundIs(15);
    }
  }

  /** adler32 over a buffer, from a checksum with reduced sums. */
  method Adler32(adler0: Word, buf: seq<Byte>) returns (r: Word)
    requires Reduced(Unpack(adler0))
    ensures r == Pack(AddAll(Unpack(adler0), buf))
  {
    hide Running, AddAll, AddByte, Bound;
    ghost var s := Unpack(adler0);
    var sum2: Word, adler: Word := adler0 / 0x1_0000, adler0 % 0x1_0000;
    ReducedRuns(s);
    NoneAdded(s, buf);
    var i := 0;
    if |buf| == 1 {
      OneAdded(s, buf);
      adler := adler + buf[0];
      if adler >= BASE { adler := adler - BASE; }
      sum2 := sum2 + adler;
      if sum2 >= BASE { sum2 := sum2 - BASE; }
      return Pack(Sums(adler, sum2));
    }
    if |buf| < 16 {
      adler, sum2 := Accumulate(adler, sum2, buf, 0, |buf|, 0, s);
      assert buf[..|buf|] == buf;
      RunningEnds(adler, sum2, |buf|, AddAll(s, buf));
      if adler >= BASE { adler := adler - BASE; }
      sum2 := Mod28(sum2);
      return Pack(Sums(adler, sum2));
    }
    while |buf| - i >= NMAX
      invariant i <= |buf| && Running(adler, sum2, 0, AddAll(s, buf[..i]))
      decreases |buf| - i
    {
      var n := NMAX / 16;
      assert n == 347;
      var k := 0;
      while n > 0
        invariant n + k == 347 && Running(adler, sum2, 16 * k, AddAll(s, buf[..i + 16 * k]))
        decreases n
      {
        adler, sum2 := Accumulate(adler, sum2, buf, i + 16 * k, 16, 16 * k, s);
        n, k := n - 1, k + 1;
      }
      i := i + NMAX;
      RunningEnds(adler, sum2, NMAX, AddAll(s, buf[..i]));
      adler, sum2 := Mod(adler), Mod(sum2);
      ReducedRuns(AddAll(s, buf[..i]));
    }
    if i < |buf| {
      var k := 0;
      while |buf| - i - 16 * k >= 16
        invariant i + 16 * k <= |buf| && Running(adler, sum2, 16 * k, AddAll(s, buf[..i + 16 * k]))
        decreases |buf| - i - 16 * k
      {
        adler, sum2 := Accumulate(adler, sum2, buf, i + 16 * k, 16, 16 * k, s);
        k := k + 1;
      }
      adler, sum2 := Accumulate(adler, sum2, buf, i + 16 * k, |buf| - i - 16 * k, 16 * k, s);
      RunningEnds(adler, sum2, |buf| - i, AddAll(s, buf[..|buf|]));
      adler, sum2 := Mod(adler), Mod(sum2);
    } else {
      RunningEnds(adler, sum2, 0, AddAll(s, buf[..i]));
      ReducedAll(s, buf);
    }
    assert buf[..|buf|] == buf;
    r := Pack(Sums(adler, sum2));
  }

  lemma NoneAdded(s: Sums, buf: seq<Byte>)
    requires Reduced(s)
    ensures AddAll(s, buf[..0]) == s
  {
  }

  lemma OneAdded(s: Sums, buf: seq<Byte>)
    requires Reduced(s) && |buf| == 1
    ensures var a := s.a + buf[0]; var a' := if a >= BASE then a - BASE else a;
            var b := s.b + a'; AddAll(s, buf) == Sums(a', if b >= BASE then b - BASE else b)
  {
    assert buf[..0] == [];
    var a := s.a + buf[0];
    DivisionIs(a, BASE, if a >= BASE then 1 else 0, if a >= BASE then a - BASE else a);
    var b := s.b + a % BASE;
    DivisionIs(b, BASE, if b >= BASE then 1 else 0, if b >= BASE then b - BASE else b);
  }

  lemma ReducedAll(s: Sums, buf: seq<Byte>)
    requires Reduced(s)
    ensures Reduced(AddAll(s, buf))
  {
  }

  // ---- concatenation ----

  lemma {:induction false} AddConcat(s: Sums, x: seq<Byte>, y: seq<Byte>)
    requires Reduced(s)
    ensures AddAll(s, x + y) == AddAll(AddAll(s, x), y)
  {
    hide AddByte;
    if y == [] {
      assert x + y == x;
    } else {
      AddConcat(s, x, y[..|y| - 1]);
      assert (x + y)[..|x + y| - 1] == x + y[..|y| - 1];
    }
  }

  /** The plain sum of the bytes. */
  ghost function Total(buf: seq<Byte>): nat {
    if buf == [] then 0 else Total(buf[..|buf| - 1]) + buf[|buf| - 1]
  }

  /** The sum of all prefix sums. */
  ghost function Weighted(buf: seq<Byte>): nat {
    if buf == [] then 0 else Weighted(buf[..|buf| - 1]) + Total(buf)
  }

  /** The sums, from any start, in closed form. */
  lemma {:induction false} AddIsSum(s: Sums, buf: seq<Byte>)
    requires Reduced(s)
    ensures AddAll(s, buf).a == (s.a + Total(buf)) % BASE
    ensures AddAll(s, buf).b == (s.b + |buf| * s.a + Weighted(buf)) % BASE
  {
    if buf != [] {
      var k := |buf| - 1;
      AddIsSum(s, buf[..k]);
      var t := AddAll(s, buf[..k]);
      hide AddAll;
      AddLast(s, buf, k);
      assert buf[..k + 1] == buf;
      ModTwice(s.a + Total(buf[..k]), buf[k]);
      var a := s.a + Total(buf);
      ModTwice(a, t.b);
      ModTwice(s.b + k * s.a + Weighted(buf[..k]), a);
      assert |buf| * s.a == k * s.a + s.a;
    }
  }

  /** adler32_combine_ for a second part of len2 bytes. */
  method Combine(adler1: Word, adler2: Word, len2: int) returns (r: Word)
    requires Reduced(Unpack(adler1)) && Reduced(Unpack(adler2)) && len2 < 0x8000_0000_0000_0000
    ensures len2 < 0 ==> r == 0xffff_ffff
    ensures len2 >= 0 ==>
      var s, t := Unpack(adler1), Unpack(adler2);
      Unpack(r) == Sums((s.a + t.a - 1) % BASE, (s.b + t.b + len2 * s.a - len2) % BASE)
  {
    if len2 < 0 { return 0xffff_ffff; }
    var rem := Mod63(len2);
    var s, t := Unpack(adler1), Unpack(adler2);
    var sum1: Word := s.a;
    ProductBound(rem, sum1);
    var product: Word := rem * sum1;
    var sum2: Word := Mod(product);
    sum1 := sum1 + t.a + BASE - 1;
    sum2 := sum2 + s.b + t.b + BASE - rem;
    ghost var x, y := sum1, sum2;
    CombinedSum(s, t, len2, rem, product);
    if sum1 >= BASE { sum1 := sum1 - BASE; }
    if sum1 >= BASE { sum1 := sum1 - BASE; }
    if sum2 >= 2 * BASE { sum2 := sum2 - 2 * BASE; }
    if sum2 >= BASE { sum2 := sum2 - BASE; }
    SmallRemainder(x, sum1);
    SmallRemainder(y, sum2);
    SameRemainder(x, s.a + t.a - 1, 1);
    PackUnpack(Sums(sum1, sum2));
    r := Pack(Sums(sum1, sum2));
  }

  lemma ProductBound(x: nat, y: nat)
    requires x < BASE && y < BASE
    ensures 0 <= x * y <= 0xffff_ffff
  {
    MulMono(x, BASE, y);
    assert x * y >= 0;
  }

  lemma SmallRemainder(x: nat, r: nat)
    requires r < BASE && (x == r || x == r + BASE || x == r + 2 * BASE || x == r + 3 * BASE)
    ensures x % BASE == r
  {
    if x == r + BASE { SameRemainder(x, r, 1); }
    if x == r + 2 * BASE { SameRemainder(x, r, 2); }
    if x == r + 3 * BASE { SameRemainder(x, r, 3); }
  }

  lemma CombinedSum(s: Sums, t: Sums, len2: nat, rem: nat, product: nat)
    requires rem == len2 % BASE && product == rem * s.a
    ensures (product % BASE + s.b + t.b + BASE - rem) % BASE == (s.b + t.b + len2 * s.a - len2) % BASE
  {
    var q, p := len2 / BASE, product / BASE;
    assert len2 == q * BASE + rem;
    Spread(q, rem, s.a);
    var k := q * s.a - q + p - 1;
    assert len2 * s.a - len2 == product - rem + (q * s.a - q) * BASE;
    assert k * BASE == (q * s.a - q) * BASE + p * BASE - BASE;
    SameRemainder(s.b + t.b + len2 * s.a - len2, product % BASE + s.b + t.b + BASE - rem, k);
  }

  lemma Spread(q: nat, rem: nat, a: nat)
    ensures (q * BASE + rem) * a == (q * a) * BASE + rem * a
  {
  }

  /** adler32_combine: for all parts, the checksum of the whole from the checksums of the parts. */
  lemma CombineIsConcat(x: seq<Byte>, y: seq<Byte>)
    ensures var s, t := AddAll(Sums(1, 0), x), AddAll(Sums(1, 0), y);
            AddAll(Sums(1, 0), x + y) == Sums((s.a + t.a - 1) % BASE, (s.b + t.b + |y| * s.a - |y|) % BASE)
  {
    hide AddAll, Total, Weighted;
    var s, t := AddAll(Sums(1, 0), x), AddAll(Sums(1, 0), y);
    AddConcat(Sums(1, 0), x, y);
    AddIsSum(s, y);
    AddIsSum(Sums(1, 0), y);
    ModTwice(1 + Total(y), s.a - 1);
    ModTwice(|y| + Weighted(y), s.b + |y| * s.a - |y|);
  }

  lemma UnpackPack(adler: Word, s: Sums)
    requires Unpack(adler) == s
    ensures Pack(s) == adler
  {
  }

  /** adler32_combine: the checksum of the whole from the packed checksums of the parts. */
  method CombineAdlers(adler1: Word, adler2: Word, len2: int, ghost x: seq<Byte>, ghost y: seq<Byte>) returns (r: Word)
    requires adler1 == Pack(AddAll(Sums(1, 0), x)) && adler2 == Pack(AddAll(Sums(1, 0), y))
    requires len2 == |y| < 0x8000_0000_0000_0000
    ensures r == Pack(AddAll(Sums(1, 0), x + y))
  {
    hide AddAll;
    PackUnpack(AddAll(Sums(1, 0), x));
    PackUnpack(AddAll(Sums(1, 0), y));
    CombineIsConcat(x, y);
    r := Combine(adler1, adler2, len2);
    UnpackPack(r, AddAll(Sums(1, 0), x + y));
  }
}
