/** The hash of three bytes, kept up to date one byte at a time. */
module RollingHash {
  import opened Bits
  import opened Reversal

  /** hash_bits and hash_shift. */
  datatype Hashing = Hashing(bits: nat, shift: nat)

  /** The oldest of three bytes is shifted out; the newest takes part in full. */
  ghost predicate Proper(h: Hashing) { 8 <= h.bits <= 16 && h.bits <= 3 * h.shift <= h.bits + 2 }

  /** UPDATE_HASH. */
  function Update(h: Hashing, key: nat, c: Byte): nat {
    Low(Xor(key * Pow2(h.shift), c), h.bits)
  }

  ghost function Two(h: Hashing, a: Byte, b: Byte): nat {
    Xor(a * Pow2(h.shift), b)
  }

  /** The key of three bytes. */
  ghost function Three(h: Hashing, a: Byte, b: Byte, c: Byte): nat {
    Low(Xor(Two(h, a, b) * Pow2(h.shift), c), h.bits)
  }

  /** The running key stands for the bytes a and b, whatever came before them. */
  ghost predicate Ready(h: Hashing, key: nat, a: Byte, b: Byte) {
    Low(key * Pow2(h.shift), h.bits) == Low(Two(h, a, b) * Pow2(h.shift), h.bits)
  }

  /** What a shift pushes above the mask does not matter. */
  lemma LowScaled(y: nat, n: nat, s: nat)
    ensures Low(Low(y, n) * Pow2(s), n) == Low(y * Pow2(s), n)
  {
    HighLow(y, n);
    var q, r, p := High(y, n), Low(y, n), Pow2(s);
    hide Low, High, Pow2;
    Regroup(q, Pow2(n), r, p);
    MulMono(0, q, p);
    MulMono(0, r, p);
    LowTop(q * p, r * p, n, n);
  }

  lemma Regroup(q: nat, m: nat, r: nat, p: nat)
    ensures (q * m + r) * p == (q * p) * m + r * p
  {
  }

  function Times(a: nat, p: nat): (r: nat)
    ensures r == a * p
  {
    MulMono(0, a, p);
    a * p
  }

  lemma LowShifted(y: nat, n: nat, s: nat)
    requires s >= n
    ensures Low(y * Pow2(s), n) == 0
  {
    hide Pow2, Low, High;
    Pow2Add(s - n, n);
    HighLow(0, n);
    var t := Times(y, Pow2(s - n));
    Associate(y, Pow2(s - n), Pow2(n));
    PartsAre(t * Pow2(n), n, t, 0);
  }

  lemma Associate(y: nat, p: nat, q: nat)
    ensures y * (p * q) == (y * p) * q
  {
  }

  /** The next byte completes the key of three, and the key is ready for the next pair. */
  lemma UpdateIs(h: Hashing, key: nat, a: Byte, b: Byte, c: Byte)
    requires Proper(h) && Ready(h, key, a, b)
    ensures Update(h, key, c) == Three(h, a, b, c) < Pow2(h.bits)
    ensures Ready(h, Update(h, key, c), b, c)
  {
    hide Low, Xor, Pow2, Two;
    var p, n, two := Pow2(h.shift), h.bits, Two(h, a, b);
    MulMono(0, key, p);
    MulMono(0, two, p);
    XorLow(key * p, c, n);
    XorLow(two * p, c, n);
    HighLow(Xor(two * p, c), n);
    LowScaled(Xor(two * p, c), n, h.shift);
    StillReady(h, a, b, c);
  }

  lemma StillReady(h: Hashing, a: Byte, b: Byte, c: Byte)
    requires Proper(h)
    ensures Low(Xor(Two(h, a, b) * Pow2(h.shift), c) * Pow2(h.shift), h.bits)
            == Low(Two(h, b, c) * Pow2(h.shift), h.bits)
  {
    hide Low, Xor, Pow2;
    var p, n, s := Pow2(h.shift), h.bits, h.shift;
    var ap: nat, bp: nat := Times(a, p), Times(b, p);
    XorScale(ap, b, s);
    var x, y: nat := Times(ap, p), Times(b, p);
    XorScale(Xor(x, y), c, s);
    XorScale(x, y, s);
    XorScale(bp, c, s);
    var u, v, w: nat := Times(x, p), Times(y, p), Times(c, p);
    ThreeShifts(a, s, n);
    XorLow(u, v, n);
    XorLow(Xor(u, v), w, n);
    XorLow(v, w, n);
    XorZero(Low(v, n));
  }

  lemma ThreeShifts(a: nat, s: nat, n: nat)
    requires 3 * s >= n
    ensures 0 <= a * Pow2(s) * Pow2(s) * Pow2(s) && Low(a * Pow2(s) * Pow2(s) * Pow2(s), n) == 0
  {
    Pow2Add(s, s);
    Pow2Add(2 * s, s);
    LowShifted(a, n, 3 * s);
    var p := Pow2(s);
    hide Low, Pow2;
    MulMono(0, a, p * p * p);
    assert a * (p * p * p) == a * p * p * p;
  }

  /** Starting afresh from two bytes. */
  lemma StartKey(h: Hashing, a: Byte, b: Byte)
    requires Proper(h)
    ensures Ready(h, Update(h, a, b), a, b) && Update(h, a, b) < Pow2(h.bits)
  {
    hide Low, Xor, Pow2;
    var y := Two(h, a, b);
    LowScaled(y, h.bits, h.shift);
    HighLow(y, h.bits);
  }

  /** Equal keys and equal first bytes: the third byte is equal too. */
  lemma ThirdByte(h: Hashing, a: Byte, b: Byte, c: Byte, d: Byte)
    requires Proper(h) && Three(h, a, b, c) == Three(h, a, b, d)
    ensures c == d
  {
    hide Low, Xor, Pow2, Two;
    var t := Times(Two(h, a, b), Pow2(h.shift));
    var n := h.bits;
    Pow2Constants();
    Pow2Monotone(8, n);
    XorLow(t, c, n);
    XorLow(t, d, n);
    LowSmall(c, n);
    LowSmall(d, n);
    var l := Low(t, n);
    XorAssoc(l, l, c);
    XorAssoc(l, l, d);
    XorSelf(l);
    XorZero(c);
    XorZero(d);
  }
}
