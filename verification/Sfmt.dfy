/** The SFMT generator: one recurrence over 128-bit words, drawn word by word or in bulk. */
module Sfmt {
  import opened Bits
  import opened Reversal

  /** The parameters of one of the generator's periods. */
  datatype Params = Params(n: nat, pos1: nat, sl1: nat, sl2: nat, sr1: nat, sr2: nat, msk1: Word, msk2: Word,
      msk3: Word, msk4: Word)

  ghost predicate Proper(p: Params) { 3 <= p.n && 1 <= p.pos1 < p.n && 1 <= p.sl2 < 8 && 1 <= p.sr2 < 8 }

  datatype W128 = W128(u0: Word, u1: Word, u2: Word, u3: Word)

  const WORD := 0x1_0000_0000

  /** Two words as a number of 64 bits, and back. */
  function Pair(lo: Word, hi: Word): nat { hi * WORD + lo }

  function Low32(x: nat): Word { x % WORD }

  function High32(x: nat): Word { x / WORD % WORD }

  function Halves(tl: nat, th: nat): W128 { W128(Low32(tl), High32(tl), Low32(th), High32(th)) }

  /** All 128 bits as one number. */
  ghost function Value(v: W128): nat { Pair(v.u2, v.u3) * (WORD * WORD) + Pair(v.u0, v.u1) }

  /** rshift128, by its two halves of 64 bits. */
  function RShift128(v: W128, k: nat): W128
    requires k <= 64
  {
    var th, tl := Pair(v.u2, v.u3), Pair(v.u0, v.u1);
    Halves(BitOr(Low(Raised(th, 64 - k), 64), High(tl, k)), High(th, k))
  }

  /** lshift128, by its two halves of 64 bits. */
  function LShift128(v: W128, k: nat): W128
    requires k <= 64
  {
    var th, tl := Pair(v.u2, v.u3), Pair(v.u0, v.u1);
    Halves(Low(Raised(tl, k), 64), BitOr(Low(Raised(th, k), 64), High(tl, 64 - k)))
  }

  // ---- the half shifts are a shift ----

  lemma HalvesValue(tl: nat, th: nat)
    requires tl < WORD * WORD && th < WORD * WORD
    ensures Value(Halves(tl, th)) == th * (WORD * WORD) + tl
  {
    assert tl / WORD < WORD && th / WORD < WORD;
  }

  lemma PairBound(lo: Word, hi: Word)
    ensures Pair(lo, hi) < WORD * WORD == Pow2(64)
  {
    Pow2Constants();
    Pow2Add(32, 32);
  }

  /** The low bits of a raised number are its own low bits, raised. */
  lemma LowRaised(x: nat, k: nat, n: nat)
    requires k <= n
    ensures Low(Raised(x, k), n) == Raised(Low(x, n - k), k)
  {
    hide Low, High, Pow2;
    HighLow(x, n - k);
    var q, r := High(x, n - k), Low(x, n - k);
    Pow2Add(n - k, k);
    Regrouped(q, Pow2(n - k), r, Pow2(k));
    Fits(r, Pow2(n - k), Pow2(k));
    PartsAre(Raised(x, k), n, q, Raised(r, k));
  }

  lemma Regrouped(q: nat, m: nat, r: nat, p: nat)
    ensures (q * m + r) * p == q * (m * p) + r * p
  {
  }

  lemma Fits(r: nat, m: nat, p: nat)
    requires r < m && p > 0
    ensures r * p < m * p
  {
    MulMono(r + 1, m, p);
    assert (r + 1) * p == r * p + p;
  }

  /** Where the low and the high part meet, or is addition. */
  lemma OrMeets(a: nat, b: nat, k: nat)
    requires b < Pow2(k)
    ensures BitOr(Raised(a, k), b) == Raised(a, k) + b
  {
    BitOrDisjoint(a, b, k);
  }

  /** rshift128 shifts the whole number. */
  lemma RShiftIs(v: W128, k: nat)
    requires k <= 64
    ensures Value(RShift128(v, k)) == High(Value(v), k)
  {
    hide Low, High, Pow2, BitOr;
    var th, tl := Pair(v.u2, v.u3), Pair(v.u0, v.u1);
    PairBound(v.u2, v.u3);
    PairBound(v.u0, v.u1);
    HighLow(th, k);
    HighLow(tl, k);
    Pow2Add(64 - k, k);
    LowRaised(th, 64 - k, 64);
    var a, b, c, d := High(th, k), Low(th, k), High(tl, k), Low(tl, k);
    var p, q := Pow2(k), Pow2(64 - k);
    QuotientSmall(c, d, q, p);
    OrMeets(b, c, 64 - k);
    var ol := Raised(b, 64 - k) + c;
    Below64(b, c, p, q);
    HighSmaller(a, b, p);
    HalvesValue(ol, a);
    Reassembled(a, b, c, d, p, q);
    PartsAre(Value(v), k, a * (WORD * WORD) + ol, d);
  }

  lemma Below64(b: nat, c: nat, p: nat, q: nat)
    requires b < p && c < q
    ensures b * q + c < p * q
  {
    MulMono(b + 1, p, q);
    assert (b + 1) * q == b * q + q;
  }

  lemma HighSmaller(a: nat, b: nat, p: nat)
    requires p > 0
    ensures a <= a * p + b
  {
    MulMono(1, p, a);
  }

  lemma Reassembled(a: nat, b: nat, c: nat, d: nat, p: nat, q: nat)
    ensures (a * (q * p) + (b * q + c)) * p + d == (a * p + b) * (q * p) + (c * p + d)
  {
    assert (a * (q * p) + (b * q + c)) * p == a * (q * p) * p + b * q * p + c * p;
    assert (a * p + b) * (q * p) == a * p * (q * p) + b * (q * p);
    assert a * (q * p) * p == a * p * (q * p);
  }

  lemma LowHalf(x: nat, k: nat)
    requires k <= 64
    ensures Low(Raised(x, k), 64) == Low(x, 64 - k) * Pow2(k) < WORD * WORD
  {
    hide Low, High, Pow2;
    PairBound(0, 0);
    LowRaised(x, k, 64);
    LowBelow(Raised(x, k), 64);
  }

  lemma HighHalf(th: nat, tl: nat, k: nat)
    requires k <= 64 && tl < WORD * WORD
    ensures High(tl, 64 - k) < Pow2(k)
    ensures BitOr(Low(Raised(th, k), 64), High(tl, 64 - k)) == Low(th, 64 - k) * Pow2(k)
            + High(tl, 64 - k) < WORD * WORD
  {
    hide Low, High, Pow2, BitOr;
    PairBound(0, 0);
    Pow2Add(64 - k, k);
    HighLow(tl, 64 - k);
    QuotientSmall(High(tl, 64 - k), Low(tl, 64 - k), Pow2(k), Pow2(64 - k));
    LowRaised(th, k, 64);
    OrMeets(Low(th, 64 - k), High(tl, 64 - k), k);
    LowBelow(th, 64 - k);
    Below64(Low(th, 64 - k), High(tl, 64 - k), Pow2(64 - k), Pow2(k));
  }

  /** The halves after a left shift, from the four parts of the number. */
  lemma LShiftHalves(v: W128, k: nat)
    requires k <= 64
    ensures var th, tl, p := Pair(v.u2, v.u3), Pair(v.u0, v.u1), Pow2(k);
            Value(LShift128(v, k)) == (Low(th, 64 - k) * p + High(tl, 64 - k)) * (WORD * WORD) + Low(tl, 64 - k) * p
    ensures var th, tl, p := Pair(v.u2, v.u3), Pair(v.u0, v.u1), Pow2(k);
            Low(th, 64 - k) * p + High(tl, 64 - k) < WORD * WORD && Low(tl, 64 - k) * p < WORD * WORD
  {
    hide Low, High, Pow2, BitOr, Value;
    var th, tl := Pair(v.u2, v.u3), Pair(v.u0, v.u1);
    PairBound(v.u0, v.u1);
    LowHalf(tl, k);
    HighHalf(th, tl, k);
    HalvesValue(Low(Raised(tl, k), 64), BitOr(Low(Raised(th, k), 64), High(tl, 64 - k)));
  }

  /** lshift128 shifts the whole number and keeps 128 bits. */
  lemma LShiftIs(v: W128, k: nat)
    requires k <= 64
    ensures Value(LShift128(v, k)) == Low(Raised(Value(v), k), 128)
  {
    hide Low, High, Pow2, LShift128;
    var th, tl := Pair(v.u2, v.u3), Pair(v.u0, v.u1);
    LShiftHalves(v, k);
    PairBound(v.u0, v.u1);
    HighLow(th, 64 - k);
    HighLow(tl, 64 - k);
    Pow2Add(64 - k, k);
    Pow2Add(64, 64);
    var a, b, c, d := High(th, 64 - k), Low(th, 64 - k), High(tl, 64 - k), Low(tl, 64 - k);
    Moved(a, b, c, d, Pow2(k), Pow2(64 - k));
    hide Value;
    LowPart(Raised(Value(v), k), a, b * Pow2(k) + c, d * Pow2(k));
  }

  lemma LowPart(x: nat, a: nat, hi: nat, lo: nat)
    requires hi < WORD * WORD && lo < WORD * WORD && x == a * ((WORD * WORD) * (WORD * WORD))
             + (hi * (WORD * WORD) + lo)
    ensures Low(x, 128) == hi * (WORD * WORD) + lo
  {
    PairBound(0, 0);
    Pow2Add(64, 64);
    hide Low, High, Pow2;
    PartsAre(x, 128, a, hi * (WORD * WORD) + lo);
  }

  lemma Moved(a: nat, b: nat, c: nat, d: nat, p: nat, q: nat)
    ensures ((a * q + b) * (q * p) + (c * q + d)) * p == a * ((q * p) * (q * p)) + ((b * p + c) * (q * p) + d * p)
  {
    var m := q * p;
    assert ((a * q + b) * m + (c * q + d)) * p == (a * q + b) * m * p + (c * q + d) * p;
    assert (a * q + b) * m * p == (a * q * m + b * m) * p == a * q * m * p + b * m * p;
    assert a * q * m * p == a * (m * m);
    assert b * m * p == b * p * m;
    assert (c * q + d) * p == c * m + d * p;
    assert (b * p + c) * m == b * p * m + c * m;
  }

  // ---- the recurrence ----

  /** One of the four words of do_recursion. */
  function Mixed(p: Params, a: Word, x: Word, b: Word, msk: Word, y: Word, d: Word): Word {
    MixedRange(p, a, x, b, msk, y, d);
    Xor(Xor(Xor(Xor(a, x), BitAnd(High(b, p.sr1), msk)), y), Low32(Raised(d, p.sl1)))
  }

  lemma MixedRange(p: Params, a: Word, x: Word, b: Word, msk: Word, y: Word, d: Word)
    ensures Xor(Xor(Xor(Xor(a, x), BitAnd(High(b, p.sr1), msk)), y), Low32(Raised(d, p.sl1))) < WORD
  {
    hide Xor;
    XorWord(a, x);
    XorWord(Xor(a, x), BitAnd(High(b, p.sr1), msk));
    XorWord(Xor(Xor(a, x), BitAnd(High(b, p.sr1), msk)), y);
    XorWord(Xor(Xor(Xor(a, x), BitAnd(High(b, p.sr1), msk)), y), Low32(Raised(d, p.sl1)));
  }

  /** do_recursion. */
  function Recur(p: Params, a: W128, b: W128, c: W128, d: W128): W128
    requires Proper(p)
  {
    var x, y := LShift128(a, p.sl2 * 8), RShift128(c, p.sr2 * 8);
    W128(Mixed(p, a.u0, x.u0, b.u0, p.msk1, y.u0, d.u0), Mixed(p, a.u1, x.u1, b.u1, p.msk2, y.u1, d.u1),
      Mixed(p, a.u2, x.u2, b.u2, p.msk3, y.u2, d.u2), Mixed(p, a.u3, x.u3, b.u3, p.msk4, y.u3, d.u3))
  }

  // ---- the recurrence on numbers of 128 bits ----

  /** The 32-bit words of b shifted right by sr1, each under its own mask. */
  ghost function MaskedWords(p: Params, b: W128): W128 {
    W128(BitAnd(High(b.u0, p.sr1), p.msk1), BitAnd(High(b.u1, p.sr1), p.msk2), BitAnd(High(b.u2, p.sr1), p.msk3),
      BitAnd(High(b.u3, p.sr1), p.msk4))
  }

  /** The 32-bit words of d shifted left by sl1, nothing carried from one to the next. */
  ghost function RaisedWords(p: Params, d: W128): W128 {
    W128(Low32(Raised(d.u0, p.sl1)), Low32(Raised(d.u1, p.sl1)), Low32(Raised(d.u2, p.sl1)),
      Low32(Raised(d.u3, p.sl1)))
  }

  /** The next number: a, a shifted left in 128 bits, b and d by words, and c shifted right. */
  ghost function NextValue(p: Params, a: W128, b: W128, c: W128, d: W128): nat {
    Xor(Xor(Xor(Xor(Value(a), Low(Raised(Value(a), 8 * p.sl2), 128)), Value(MaskedWords(p, b))),
            High(Value(c), 8 * p.sr2)), Value(RaisedWords(p, d)))
  }

  /** The words of a number. */
  ghost function Of(x: nat): W128 { Halves(Low(x, 64), High(x, 64)) }

  lemma OfValue(v: W128)
    ensures Of(Value(v)) == v
  {
    hide Pow2, Low, High;
    var th, tl := Pair(v.u2, v.u3), Pair(v.u0, v.u1);
    PairBound(v.u0, v.u1);
    PartsAre(Value(v), 64, th, tl);
    DivisionIs(tl, WORD, v.u1, v.u0);
    DivisionIs(th, WORD, v.u3, v.u2);
  }

  /** Exclusive or, word by word. */
  ghost function XorWords(v: W128, w: W128): W128 {
    XorWord(v.u0, w.u0);
    XorWord(v.u1, w.u1);
    XorWord(v.u2, w.u2);
    XorWord(v.u3, w.u3);
    W128(Xor(v.u0, w.u0), Xor(v.u1, w.u1), Xor(v.u2, w.u2), Xor(v.u3, w.u3))
  }

  lemma XorPair(lo: Word, hi: Word, lo': Word, hi': Word)
    ensures Xor(lo, lo') < WORD && Xor(hi, hi') < WORD
            && Xor(Pair(lo, hi), Pair(lo', hi')) == Pair(Xor(lo, lo'), Xor(hi, hi'))
  {
    hide Xor, Pow2;
    Pow2Constants();
    XorWord(lo, lo');
    XorWord(hi, hi');
    XorStacked(hi, lo, hi', lo', 32);
  }

  lemma XorValue(v: W128, w: W128)
    ensures Xor(Value(v), Value(w)) == Value(XorWords(v, w))
  {
    hide Xor, Pow2, Pair;
    PairBound(v.u0, v.u1);
    PairBound(w.u0, w.u1);
    XorStacked(Pair(v.u2, v.u3), Pair(v.u0, v.u1), Pair(w.u2, w.u3), Pair(w.u0, w.u1), 64);
    XorPair(v.u0, v.u1, w.u0, w.u1);
    XorPair(v.u2, v.u3, w.u2, w.u3);
  }

  /** do_recursion, made of words and of 64-bit halves, is the recurrence on numbers. */
  lemma RecurIs(p: Params, a: W128, b: W128, c: W128, d: W128)
    requires Proper(p)
    ensures Value(Recur(p, a, b, c, d)) == NextValue(p, a, b, c, d)
    ensures Recur(p, a, b, c, d) == Of(NextValue(p, a, b, c, d))
  {
    var x, y := LShift128(a, p.sl2 * 8), RShift128(c, p.sr2 * 8);
    RecurWords(p, a, b, c, d);
    hide Xor, Value, LShift128, RShift128, Recur, MaskedWords, RaisedWords, XorWords, Of;
    LShiftIs(a, p.sl2 * 8);
    RShiftIs(c, p.sr2 * 8);
    var m, r := MaskedWords(p, b), RaisedWords(p, d);
    XorValue(a, x);
    XorValue(XorWords(a, x), m);
    XorValue(XorWords(XorWords(a, x), m), y);
    XorValue(XorWords(XorWords(XorWords(a, x), m), y), r);
    OfValue(Recur(p, a, b, c, d));
  }

  lemma RecurWords(p: Params, a: W128, b: W128, c: W128, d: W128)
    requires Proper(p)
    ensures Recur(p, a, b, c, d)
            == XorWords(XorWords(XorWords(XorWords(a, LShift128(a, p.sl2 * 8)), MaskedWords(p, b)),
                                 RShift128(c, p.sr2 * 8)), RaisedWords(p, d))
  {
    hide Xor, LShift128, RShift128, High, BitAnd, Raised;
  }

  /** The sequence that grows from an initial state. */
  ghost function Term(p: Params, init: seq<W128>, i: nat): W128
    requires Proper(p) && |init| == p.n
  {
    if i < p.n then init[i]
    else Of(NextValue(p, Term(p, init, i - p.n), Term(p, init, i - p.n + p.pos1), Term(p, init, i - 2),
                      Term(p, init, i - 1)))
  }

  /** From position from on, s holds the terms from index base on. */
  ghost predicate Terms(p: Params, init: seq<W128>, s: seq<W128>, from: nat, to: nat, base: int)
    requires Proper(p) && |init| == p.n
  {
    from <= to <= |s| && base + from >= 0 && forall k :: from <= k < to ==> s[k] == Term(p, init, base + k)
  }

  lemma NextTerm(p: Params, init: seq<W128>, i: nat, a: W128, b: W128, c: W128, d: W128)
    requires Proper(p) && |init| == p.n && i >= p.n
    requires a == Term(p, init, i - p.n) && b == Term(p, init, i - p.n + p.pos1) && c == Term(p, init, i - 2)
             && d == Term(p, init, i - 1)
    ensures Recur(p, a, b, c, d) == Term(p, init, i)
  {
    hide Recur, Of, NextValue;
    RecurIs(p, a, b, c, d);
  }

  /** Where the two words before the i-th are: r1 and r2. */
  ghost predicate LastTwo(p: Params, init: seq<W128>, s: seq<W128>, i: nat, r1: int, r2: int, base: nat)
    requires Proper(p) && |init| == p.n
  {
    && r1 == (if i <= 1 then p.n - 2 + i else i - 2) && r2 == (if i == 0 then p.n - 1 else i - 1)
    && 0 <= r1 < |s| && 0 <= r2 < |s|
    && s[r1] == Term(p, init, base + p.n + i - 2) && s[r2] == Term(p, init, base + p.n + i - 1)
  }

  /** One word of the refill; from is where the word pos1 further on is now. */
  method NextWord(p: Params, state: array<W128>, i: nat, from: nat, r1: nat, r2: nat, ghost init: seq<W128>,
      ghost base: nat)
    requires Proper(p) && |init| == p.n == state.Length && i < p.n
    requires Terms(p, init, state[..], 0, i, base + p.n) && Terms(p, init, state[..], i, p.n, base)
    requires LastTwo(p, init, state[..], i, r1, r2, base)
    requires from == if i + p.pos1 < p.n then i + p.pos1 else i + p.pos1 - p.n
    modifies state
    ensures Terms(p, init, state[..], 0, i + 1, base + p.n) && Terms(p, init, state[..], i + 1, p.n, base)
    ensures LastTwo(p, init, state[..], i + 1, r2, i, base)
  {
    hide Recur, Term;
    NextTerm(p, init, base + p.n + i, state[i], state[from], state[r1], state[r2]);
    state[i] := Recur(p, state[i], state[from], state[r1], state[r2]);
  }

  /** sfmt_gen_rand_all: the state moves on by its own length, in place. Each new word is written over
      the oldest one it is made from; r1 and r2 are the two words written last. */
  method GenRandAll(p: Params, state: array<W128>, ghost init: seq<W128>, ghost base: nat)
    requires Proper(p) && |init| == p.n == state.Length && Terms(p, init, state[..], 0, p.n, base)
    modifies state
    ensures Terms(p, init, state[..], 0, p.n, base + p.n)
  {
    hide Recur, Term;
    var r1, r2 := p.n - 2, p.n - 1;
    var i := 0;
    while i < p.n - p.pos1
      invariant 0 <= i <= p.n - p.pos1
      invariant Terms(p, init, state[..], 0, i, base + p.n) && Terms(p, init, state[..], i, p.n, base)
      invariant LastTwo(p, init, state[..], i, r1, r2, base)
    {
      NextWord(p, state, i, i + p.pos1, r1, r2, init, base);
      r1 := r2;
      r2 := i;
      i := i + 1;
    }
    while i < p.n
      invariant p.n - p.pos1 <= i <= p.n
      invariant Terms(p, init, state[..], 0, i, base + p.n) && Terms(p, init, state[..], i, p.n, base)
      invariant LastTwo(p, init, state[..], i, r1, r2, base)
    {
      NextWord(p, state, i, i + p.pos1 - p.n, r1, r2, init, base);
      r1 := r2;
      r2 := i;
      i := i + 1;
    }
  }

  // ---- bulk filling ----

  /** gen_rand_array: size words of the sequence into the array, and the last n of them into the state. */
  method GenRandArray(p: Params, state: array<W128>, arr: array<W128>, size: nat, ghost init: seq<W128>,
      ghost base: nat)
    requires Proper(p) && |init| == p.n == state.Length && Terms(p, init, state[..], 0, p.n, base)
    requires p.n <= size <= arr.Length && arr != state
    modifies state, arr
    ensures Terms(p, init, arr[..], 0, size, base + p.n)
    ensures Terms(p, init, state[..], 0, p.n, base + size)
    ensures forall k :: size <= k < arr.Length ==> arr[k] == old(arr[k])
  {
    hide Recur, Term, Terms;
    FillFromState(p, state, arr, init, base);
    var i := FillFromArray(p, arr, p.n, if size - p.n > p.n then size - p.n else p.n, init, base);
    ghost var arr0 := arr[..];
    var j := 0;
    KeepNone(p, init, state[..], base + size);
    while j < 2 * p.n - size
      invariant 0 <= j && (j <= 2 * p.n - size || j == 0)
      invariant Terms(p, init, state[..], 0, j, base + size) && arr[..] == arr0
      modifies state
    {
      ghost var was := state[..];
      state[j] := KeptWord(p, arr, j + size - p.n, i, init, base);
      KeepOne(p, init, was, state[..], j, base + size);
      j := j + 1;
    }
    while i < size
      invariant p.n <= i <= size && j == i + p.n - size
      invariant Terms(p, init, arr[..], 0, i, base + p.n) && Terms(p, init, state[..], 0, j, base + size)
      invariant forall k :: size <= k < arr.Length ==> arr[k] == old(arr[k])
    {
      i := FillFromArray(p, arr, i, i + 1, init, base);
      ghost var was := state[..];
      state[j] := KeptWord(p, arr, i - 1, i, init, base);
      KeepOne(p, init, was, state[..], j, base + size);
      j := j + 1;
    }
  }

  lemma KeepNone(p: Params, init: seq<W128>, s: seq<W128>, base: nat)
    requires Proper(p) && |init| == p.n
    ensures Terms(p, init, s, 0, 0, base)
  {
  }

  lemma KeepOne(p: Params, init: seq<W128>, s: seq<W128>, s': seq<W128>, j: nat, base: nat)
    requires Proper(p) && |init| == p.n && j < |s| && s' == s[j := Term(p, init, base + j)]
             && Terms(p, init, s, 0, j, base)
    ensures Terms(p, init, s', 0, j + 1, base)
  {
    hide Term;
  }

  method KeptWord(p: Params, arr: array<W128>, k: nat, i: nat, ghost init: seq<W128>, ghost base: nat) returns (w: W128)
    requires Proper(p) && |init| == p.n && k < i <= arr.Length && Terms(p, init, arr[..], 0, i, base + p.n)
    ensures w == Term(p, init, base + p.n + k)
  {
    hide Term;
    w := arr[k];
  }

  /** The first n words, from the state alone and then from the state and the array. */
  method FillFromState(p: Params, state: array<W128>, arr: array<W128>, ghost init: seq<W128>, ghost base: nat)
    requires Proper(p) && |init| == p.n == state.Length && Terms(p, init, state[..], 0, p.n, base)
    requires p.n <= arr.Length && arr != state
    modifies arr
    ensures Terms(p, init, arr[..], 0, p.n, base + p.n)
    ensures forall k :: p.n <= k < arr.Length ==> arr[k] == old(arr[k])
  {
    hide Recur, Term;
    var r1, r2 := state[p.n - 2], state[p.n - 1];
    var i := 0;
    while i < p.n - p.pos1
      invariant 0 <= i <= p.n - p.pos1 && Terms(p, init, arr[..], 0, i, base + p.n)
      invariant r1 == Term(p, init, base + p.n + i - 2) && r2 == Term(p, init, base + p.n + i - 1)
      invariant forall k :: p.n <= k < arr.Length ==> arr[k] == old(arr[k])
    {
      NextTerm(p, init, base + p.n + i, state[i], state[i + p.pos1], r1, r2);
      arr[i] := Recur(p, state[i], state[i + p.pos1], r1, r2);
      r1, r2 := r2, arr[i];
      i := i + 1;
    }
    while i < p.n
      invariant p.n - p.pos1 <= i <= p.n && Terms(p, init, arr[..], 0, i, base + p.n)
      invariant r1 == Term(p, init, base + p.n + i - 2) && r2 == Term(p, init, base + p.n + i - 1)
      invariant forall k :: p.n <= k < arr.Length ==> arr[k] == old(arr[k])
    {
      NextTerm(p, init, base + p.n + i, state[i], arr[i + p.pos1 - p.n], r1, r2);
      arr[i] := Recur(p, state[i], arr[i + p.pos1 - p.n], r1, r2);
      r1, r2 := r2, arr[i];
      i := i + 1;
    }
  }

  /** Further words, each from words of the array. */
  method FillFromArray(p: Params, arr: array<W128>, from: nat, to: nat, ghost init: seq<W128>, ghost base: nat)
    returns (i: nat)
    requires Proper(p) && |init| == p.n && p.n <= from <= to <= arr.Length
             && Terms(p, init, arr[..], 0, from, base + p.n)
    modifies arr
    ensures i == to && Terms(p, init, arr[..], 0, to, base + p.n)
    ensures forall k :: to <= k < arr.Length ==> arr[k] == old(arr[k])
  {
    hide Recur, Term;
    i := from;
    var r1, r2 := arr[i - 2], arr[i - 1];
    while i < to
      invariant from <= i <= to && Terms(p, init, arr[..], 0, i, base + p.n)
      invariant r1 == Term(p, init, base + p.n + i - 2) && r2 == Term(p, init, base + p.n + i - 1)
      invariant forall k :: to <= k < arr.Length ==> arr[k] == old(arr[k])
    {
      NextTerm(p, init, base + p.n + i, arr[i - p.n], arr[i + p.pos1 - p.n], r1, r2);
      arr[i] := Recur(p, arr[i - p.n], arr[i + p.pos1 - p.n], r1, r2);
      r1, r2 := r2, arr[i];
      i := i + 1;
    }
  }

  // ---- one stream ----

  function WordOf(w: W128, k: nat): Word
    requires k < 4
  {
    if k == 0 then w.u0 else if k == 1 then w.u1 else if k == 2 then w.u2 else w.u3
  }

  /** Word i of 32 bits of the whole sequence. */
  ghost function Out(p: Params, init: seq<W128>, i: nat): Word
    requires Proper(p) && |init| == p.n
  {
    WordOf(Term(p, init, i / 4), i % 4)
  }

  lemma OutIs(p: Params, init: seq<W128>, s: seq<W128>, base: nat, idx: nat)
    requires Proper(p) && |init| == p.n == |s| && Terms(p, init, s, 0, p.n, base) && idx < 4 * p.n
    ensures Out(p, init, 4 * base + idx) == WordOf(s[idx / 4], idx % 4)
  {
    hide Term, WordOf;
    DivisionIs(4 * base + idx, 4, base + idx / 4, idx % 4);
  }

  class Generator {
    const p: Params
    const state: array<W128>
    var idx: nat
    ghost const init: seq<W128>
    ghost var base: nat

    ghost predicate Valid()
      reads this, state
    {
      Proper(p) && |init| == p.n == state.Length && idx <= 4 * p.n && Terms(p, init, state[..], 0, p.n, base)
    }

    /** How many words of 32 bits have been passed, the initial state included. */
    ghost function Position(): nat
      reads this
    {
      4 * base + idx
    }

    /** The state as initialisation leaves it: nothing drawn. */
    constructor (p: Params, s: seq<W128>)
      requires Proper(p) && |s| == p.n
      ensures Valid() && Position() == 4 * p.n && this.p == p && init == s && fresh(state)
    {
      this.p := p;
      state := new W128[p.n](i requires 0 <= i < p.n => s[i]);
      init := s;
      idx := 4 * p.n;
      base := 0;
      new;
      assert state[..] == s;
    }

    /** A refill when all of the state has been drawn. */
    method Refill()
      requires Valid()
      modifies this, state
      ensures Valid() && Position() == old(Position()) && idx < 4 * p.n && (old(idx) < 4 * p.n ==> idx == old(idx))
      ensures old(idx) == 4 * p.n ==> idx == 0
    {
      hide Terms;
      if idx >= 4 * p.n {
        GenRandAll(p, state, init, base);
        base := base + p.n;
        idx := 0;
      }
    }

    /** sfmt_genrand_uint32. */
    method GenrandUint32() returns (r: Word)
      requires Valid()
      modifies this, state
      ensures Valid() && Position() == old(Position()) + 1 && r == Out(p, init, old(Position()))
    {
      hide Term, Out, Terms, WordOf;
      Refill();
      OutIs(p, init, state[..], base, idx);
      r := WordOf(state[idx / 4], idx % 4);
      idx := idx + 1;
    }

    /** sfmt_genrand_uint64, low word first. */
    method GenrandUint64() returns (r: nat)
      requires Valid() && idx % 2 == 0
      modifies this, state
      ensures Valid() && Position() == old(Position()) + 2 && idx % 2 == 0
      ensures r == Pair(Out(p, init, old(Position())), Out(p, init, old(Position()) + 1))
    {
      hide Term, Out, Pair, Terms, WordOf;
      Refill();
      OutIs(p, init, state[..], base, idx);
      OutIs(p, init, state[..], base, idx + 1);
      var w := state[idx / 4];
      r := Pair(WordOf(w, idx % 4), WordOf(w, idx % 4 + 1));
      idx := idx + 2;
    }

    /** sfmt_fill_array32 and sfmt_fill_array64, on words of 128 bits: the next 4 * size words of the stream,
        and everything drawn afterwards goes on from there. */
    method FillArray(arr: array<W128>, size: nat)
      requires Valid() && idx == 4 * p.n && p.n <= size <= arr.Length && arr != state
      modifies this, state, arr
      ensures Valid() && Position() == old(Position()) + 4 * size && idx == 4 * p.n
      ensures forall i: nat :: i < 4 * size ==> WordOf(arr[i / 4], i % 4) == Out(p, init, old(Position()) + i)
      ensures forall k :: size <= k < arr.Length ==> arr[k] == old(arr[k])
    {
      hide Term;
      GenRandArray(p, state, arr, size, init, base);
      ghost var from := Position();
      forall i: nat | i < 4 * size ensures WordOf(arr[i / 4], i % 4) == Out(p, init, from + i) {
        DivisionIs(from + i, 4, base + p.n + i / 4, i % 4);
        assert arr[..][i / 4] == Term(p, init, base + p.n + i / 4);
      }
      base := base + size;
      idx := 4 * p.n;
    }
  }

  /** The same words in bulk and one by one: a fill followed by single draws is single draws throughout. */
  method DrawBothWays(g: Generator, h: Generator, arr: array<W128>, size: nat, more: nat) returns (same: bool)
    requires g.Valid() && h.Valid() && g.p == h.p && g.init == h.init && g.Position() == h.Position()
             && g.idx == 4 * g.p.n
    requires g != h && g.state != h.state && arr != g.state && arr != h.state && g.p.n <= size <= arr.Length
    modifies g, h, g.state, h.state, arr
    ensures same && g.Valid() && h.Valid() && g.Position() == h.Position()
  {
    hide Generator.Valid, Term;
    g.FillArray(arr, size);
    ghost var words := arr[..];
    ghost var start := h.Position();
    same := true;
    var i := 0;
    while i < 4 * size
      invariant 0 <= i <= 4 * size && same && h.Valid() && h.Position() == start + i && g.Valid()
                && g.Position() == start + 4 * size && arr[..] == words
      modifies h, h.state
    {
      var r := h.GenrandUint32();
      same := same && r == WordOf(arr[i / 4], i % 4);
      i := i + 1;
    }
    var k := 0;
    while k < more
      invariant 0 <= k <= more && same && g.Valid() && h.Valid() && g.Position() == h.Position()
      modifies g, h, g.state, h.state
    {
      var r := g.GenrandUint32();
      var q := h.GenrandUint32();
      same := same && r == q;
      k := k + 1;
    }
  }
}
