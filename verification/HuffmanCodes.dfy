/** Canonical codes from code lengths: what is assigned, that it fits and is prefix
    free, and that limit/base/perm decoding finds the symbol again. */
module HuffmanCodes {
  import opened Bits
  import opened Radix
  import opened BwtTheory
  import opened BitStream
  import opened HuffmanForest

  const MAX_CODE_LEN := 23
  const LONGEST := 20

  /** Code lengths a stream may carry. */
  ghost predicate Lengths(lens: seq<int>, minLen: int, maxLen: int) {
    && 0 < |lens| <= 258 && 1 <= minLen <= maxLen <= LONGEST
    && (forall i :: 0 <= i < |lens| ==> minLen <= lens[i] <= maxLen)
  }

  /** The first code of length l. */
  ghost function First(lens: seq<int>, l: nat): (c: nat) {
    if l == 0 then 0 else 2 * (First(lens, l - 1) + Equal(lens, l - 1))
  }

  /** Symbols of one length get successive codes in order of their number. */
  ghost function Code(lens: seq<int>, i: int): (c: nat)
    requires 0 <= i < |lens| && lens[i] >= 0
  {
    First(lens, lens[i]) + Equal(lens[..i], lens[i])
  }

  ghost function CodeBits(lens: seq<int>, i: int): (s: seq<bool>)
    requires 0 <= i < |lens| && lens[i] >= 0
    ensures |s| == lens[i]
  {
    BitsOf(Code(lens, i), lens[i])
  }

  /** One past the last code of length l. */
  ghost function Last(lens: seq<int>, l: nat): nat { First(lens, l) + Equal(lens, l) }

  // ---- codes fit ----

  lemma {:induction false} FirstPrefix(lens: seq<int>, l: nat)
    requires lens != []
    ensures var k := |lens| - 1;
            First(lens, l) == First(lens[..k], l) + (if 0 <= lens[k] < l then Pow2(l - lens[k]) else 0)
    decreases l
  {
    if l > 0 {
      FirstPrefix(lens, l - 1);
    }
  }

  /** The codes up to length l use as much of the code space as Kraft's sum says. */
  lemma {:induction false} LastIsKraft(lens: seq<int>, l: nat)
    ensures Last(lens, l) == KraftSum(lens, l)
  {
    if lens == [] {
      FirstEmpty(l);
    } else {
      LastIsKraft(lens[..|lens| - 1], l);
      FirstPrefix(lens, l);
    }
  }

  lemma {:induction false} FirstEmpty(l: nat)
    ensures First([], l) == 0
  {
    if l > 0 { FirstEmpty(l - 1); }
  }

  lemma {:induction false} KraftGrows(lens: seq<int>, l: nat, e: nat)
    ensures KraftSum(lens, l) * Pow2(e) <= KraftSum(lens, l + e)
  {
    if lens != [] {
      var k := |lens| - 1;
      KraftGrows(lens[..k], l, e);
      if 0 <= lens[k] <= l { Pow2Add(l - lens[k], e); }
      SumTimes(KraftSum(lens[..k], l), if 0 <= lens[k] <= l then Pow2(l - lens[k]) else 0, Pow2(e));
    }
  }

  /** If the lengths do not overfill the code space, every code fits its length. */
  lemma CodeFits(lens: seq<int>, i: int, M: nat)
    requires 0 <= i < |lens| && 0 <= lens[i] <= M && KraftSum(lens, M) <= Pow2(M)
    ensures Code(lens, i) < Last(lens, lens[i]) <= Pow2(lens[i])
  {
    hide Equal, KraftSum;
    EqualPrefix(lens, i, |lens|, lens[i]);
    assert lens[..|lens|] == lens;
    LastIsKraft(lens, lens[i]);
    KraftGrows(lens, lens[i], M - lens[i]);
    Pow2Add(lens[i], M - lens[i]);
    Divide(KraftSum(lens, lens[i]), Pow2(lens[i]), Pow2(M - lens[i]));
  }

  lemma Divide(a: int, b: int, c: int)
    requires c > 0 && a * c <= b * c
    ensures a <= b
  {
    if a > b { MulMono(b + 1, a, c); }
  }

  // ---- codes are prefix free ----

  lemma {:induction false} HighAtLeast(v: nat, b: nat, q: nat)
    requires v >= q * Pow2(b)
    ensures High(v, b) >= q
  {
    if b > 0 {
      Doubled(q, Pow2(b - 1));
      HighAtLeast(v / 2, b - 1, q);
    }
  }

  lemma {:induction false} FirstGrows(lens: seq<int>, l: nat, k: nat)
    requires k >= 1
    ensures First(lens, l + k) >= Last(lens, l) * Pow2(k)
    decreases k
  {
    if k > 1 {
      FirstGrows(lens, l, k - 1);
      Doubled(Last(lens, l), Pow2(k - 1));
    }
  }

  /** Cut to a shorter length, a code is beyond all codes of that length. */
  lemma HighBeyond(lens: seq<int>, j: int, l: nat)
    requires 0 <= j < |lens| && l < lens[j]
    ensures High(Code(lens, j), lens[j] - l) >= Last(lens, l)
  {
    FirstGrows(lens, l, lens[j] - l);
    HighAtLeast(Code(lens, j), lens[j] - l, Last(lens, l));
  }

  lemma CodeBelowLast(lens: seq<int>, i: int)
    requires 0 <= i < |lens| && lens[i] >= 0
    ensures Code(lens, i) < Last(lens, lens[i])
  {
    hide Equal;
    EqualPrefix(lens, i, |lens|, lens[i]);
    assert lens[..|lens|] == lens;
  }

  /** The first l bits of a code, as a number. */
  lemma CodeCut(lens: seq<int>, i: int, l: nat, M: nat)
    requires 0 <= i < |lens| && l <= lens[i] <= M && KraftSum(lens, M) <= Pow2(M)
    ensures ValueOf(CodeBits(lens, i)[..l]) == High(Code(lens, i), lens[i] - l)
  {
    hide Code, BitsOf, ValueOf, High;
    CodeFits(lens, i, M);
    var v, m := Code(lens, i), lens[i] - l;
    BitsSplit(v, l, m);
    HighLow(v, m);
    Pow2Add(l, m);
    QuotientBound(High(v, m), Low(v, m), Pow2(l), Pow2(m));
    ValueBits(High(v, m), l);
  }

  /** No code is a prefix of another symbol's. */
  lemma PrefixFree(lens: seq<int>, i: int, j: int, M: nat)
    requires 0 <= i < |lens| && 0 <= j < |lens| && i != j && 0 <= lens[i] <= M && 0 <= lens[j] <= M
             && KraftSum(lens, M) <= Pow2(M)
    ensures !(CodeBits(lens, i) <= CodeBits(lens, j))
  {
    hide Code, First, KraftSum, ValueOf, BitsOf, High, Equal;
    if CodeBits(lens, i) <= CodeBits(lens, j) {
      var l := lens[i];
      CodeCut(lens, j, l, M);
      CodeCut(lens, i, l, M);
      assert CodeBits(lens, j)[..l] == CodeBits(lens, i) == CodeBits(lens, i)[..l];
      NoShift(Code(lens, i));
      CodeBelowLast(lens, i);
      if l < lens[j] {
        HighBeyond(lens, j, l);
      } else {
        NoShift(Code(lens, j));
        SameLengthCodes(lens, i, j);
      }
      assert false;
    }
  }

  lemma SameLengthCodes(lens: seq<int>, i: int, j: int)
    requires 0 <= i < |lens| && 0 <= j < |lens| && i != j && lens[i] == lens[j] >= 0
    ensures Code(lens, i) != Code(lens, j)
  {
    hide Equal, First;
    if i < j { EqualPrefix(lens, i, j, lens[i]); } else { EqualPrefix(lens, j, i, lens[i]); }
  }

  // ---- assigning ----

  lemma {:induction false} FirstZero(lens: seq<int>, minLen: int, maxLen: int, l: nat)
    requires Lengths(lens, minLen, maxLen) && l <= minLen
    ensures First(lens, l) == 0
  {
    if l > 0 {
      FirstZero(lens, minLen, maxLen, l - 1);
      EqualNone(lens, l - 1);
    }
  }

  ghost function Ints(s: seq<Byte>): (r: seq<int>)
    ensures |r| == |s| && forall i :: 0 <= i < |s| ==> r[i] == s[i]
  {
    s
  }

  method AssignCodes(code: array<int>, length: array<Byte>, minLen: int, maxLen: int, alphaSize: int)
    requires code as object != length && 0 < alphaSize <= length.Length && alphaSize <= code.Length
    requires Lengths(Ints(length[..alphaSize]), minLen, maxLen)
    modifies code
    ensures forall i :: 0 <= i < alphaSize ==> code[i] == Code(Ints(length[..alphaSize]), i)
  {
    hide First, Equal;
    ghost var lens := Ints(length[..alphaSize]);
    FirstZero(lens, minLen, maxLen, minLen);
    var vec := 0;
    for n := minLen to maxLen + 1
      invariant vec == First(lens, n) && length[..alphaSize] == lens
      invariant forall i :: 0 <= i < alphaSize && lens[i] < n ==> code[i] == Code(lens, i)
    {
      NoneBefore(lens, n);
      for i := 0 to alphaSize
        invariant vec == First(lens, n) + Equal(lens[..i], n) && length[..alphaSize] == lens
        invariant forall j :: 0 <= j < alphaSize && lens[j] < n ==> code[j] == Code(lens, j)
        invariant forall j :: 0 <= j < i && lens[j] == n ==> code[j] == Code(lens, j)
      {
        EqualNext(lens, i, n);
        assert length[i] == lens[i];
        if length[i] == n {
          code[i] := vec;
          vec := vec + 1;
        }
      }
      assert lens[..alphaSize] == lens;
      FirstNext(lens, n);
      vec := vec * 2;
    }
  }

  lemma NoneBefore(lens: seq<int>, v: int)
    ensures Equal(lens[..0], v) == 0
  {
  }

  lemma FirstNext(lens: seq<int>, l: nat)
    ensures First(lens, l + 1) == 2 * (First(lens, l) + Equal(lens, l))
  {
  }

  // ---- decoding tables ----

  ghost function Longest(lens: seq<int>): (m: int)
    requires |lens| > 0
    ensures (forall i :: 0 <= i < |lens| ==> lens[i] <= m) && m in lens
  {
    if |lens| == 1 then lens[0]
    else var m := Longest(lens[..|lens| - 1]);
      if lens[|lens| - 1] > m then lens[|lens| - 1] else m
  }

  ghost function Shortest(lens: seq<int>): (m: int)
    requires |lens| > 0
    ensures (forall i :: 0 <= i < |lens| ==> lens[i] >= m) && m in lens
  {
    if |lens| == 1 then lens[0]
    else var m := Shortest(lens[..|lens| - 1]);
      if lens[|lens| - 1] < m then lens[|lens| - 1] else m
  }

  /** minLen and maxLen. */
  method LengthRange(lens: seq<int>) returns (minLen: int, maxLen: int)
    requires |lens| > 0 && forall i :: 0 <= i < |lens| ==> 1 <= lens[i] <= LONGEST
    ensures minLen == Shortest(lens) && maxLen == Longest(lens)
  {
    minLen, maxLen := 32, 0;
    for i := 0 to |lens|
      invariant forall k :: 0 <= k < i ==> minLen <= lens[k] <= maxLen
      invariant i == 0 ==> minLen == 32 && maxLen == 0
      invariant i > 0 ==> minLen in lens && maxLen in lens
    {
      if lens[i] > maxLen { maxLen := lens[i]; }
      if lens[i] < minLen { minLen := lens[i]; }
    }
  }

  /** The symbol in slot k: symbols in order of length, then of number. */
  ghost function SymbolAt(lens: seq<int>, k: nat): (i: nat)
    requires k < |lens|
    ensures i < |lens| && Slot(lens, i) == k
  {
    SlotsPerm(lens);
    Inverse(Slots(lens))[k]
  }

  /** limit: the last code of each length in use. */
  ghost function LimitAt(lens: seq<int>, l: nat): int
    requires |lens| > 0
  {
    if Shortest(lens) <= l <= Longest(lens) then Last(lens, l) - 1 else 0
  }

  /** base: what takes a code to its slot. */
  ghost function BaseAt(lens: seq<int>, l: nat): int
    requires |lens| > 0
  {
    if Shortest(lens) <= l <= Longest(lens) then First(lens, l) - Below(lens, l) else Below(lens, l)
  }

  lemma {:induction false} BelowNone(lens: seq<int>, v: int)
    requires forall i :: 0 <= i < |lens| ==> lens[i] >= v
    ensures Below(lens, v) == 0
  {
    if lens != [] {
      var k := |lens| - 1;
      assert forall i :: 0 <= i < k ==> lens[..k][i] == lens[i];
      BelowNone(lens[..k], v);
    }
  }

  lemma SlotNext(lens: seq<int>, i: int)
    requires 0 <= i < |lens|
    ensures 0 <= Slot(lens, i) == Below(lens, lens[i]) + Equal(lens[..i], lens[i]) < |lens|
  {
    SlotBounds(lens, i);
  }

  method FillPerm(perm: array<int>, length: array<Byte>, minLen: int, maxLen: int, alphaSize: int, ghost lens: seq<int>)
    requires perm as object != length && 0 < alphaSize <= length.Length && alphaSize <= perm.Length
    requires lens == length[..alphaSize] && Lengths(lens, minLen, maxLen)
    modifies perm
    ensures forall i :: 0 <= i < alphaSize ==> 0 <= Slot(lens, i) < perm.Length && perm[Slot(lens, i)] == i
    ensures forall k :: alphaSize <= k < perm.Length ==> perm[k] == old(perm[k])
  {
    hide Equal, Below, Slot;
    var pp := 0;
    BelowNone(lens, minLen);
    SlotsPerm(lens);
    assert forall i :: 0 <= i < alphaSize ==> Slots(lens)[i] == Slot(lens, i);
    for n := minLen to maxLen + 1
      invariant pp == Below(lens, n) && length[..alphaSize] == lens
      invariant forall i :: 0 <= i < alphaSize && lens[i] < n ==> perm[Slot(lens, i)] == i
      invariant forall k :: alphaSize <= k < perm.Length ==> perm[k] == old(perm[k])
    {
      NoneBefore(lens, n);
      for j := 0 to alphaSize
        invariant pp == Below(lens, n) + Equal(lens[..j], n) && length[..alphaSize] == lens
        invariant forall i :: 0 <= i < alphaSize && lens[i] < n ==> perm[Slot(lens, i)] == i
        invariant forall i :: 0 <= i < j && lens[i] == n ==> perm[Slot(lens, i)] == i
        invariant forall k :: alphaSize <= k < perm.Length ==> perm[k] == old(perm[k])
      {
        EqualNext(lens, j, n);
        assert length[j] == lens[j];
        if length[j] == n {
          SlotNext(lens, j);
          assert forall i :: 0 <= i < alphaSize && i != j ==> Slot(lens, i) != Slot(lens, j);
          perm[pp] := j;
          pp := pp + 1;
        }
      }
      assert lens[..alphaSize] == lens;
      BelowNext(lens, n);
    }
  }

  /** base as counts: how many lengths are below each value. */
  method CountLengths(base: array<int>, length: array<Byte>, alphaSize: int, ghost lens: seq<int>, ghost minLen: int,
      ghost maxLen: int)
    requires base as object != length && 0 < alphaSize <= length.Length && base.Length >= MAX_CODE_LEN
    requires lens == length[..alphaSize] && Lengths(lens, minLen, maxLen)
    modifies base
    ensures forall v :: 0 <= v < MAX_CODE_LEN ==> base[v] == Below(lens, v)
    ensures forall v :: MAX_CODE_LEN <= v < base.Length ==> base[v] == old(base[v])
  {
    hide Equal, Below;
    for i := 0 to MAX_CODE_LEN
      invariant forall v :: 0 <= v < i ==> base[v] == 0
      invariant forall v :: MAX_CODE_LEN <= v < base.Length ==> base[v] == old(base[v])
      invariant length[..alphaSize] == lens
    {
      base[i] := 0;
    }
    forall v ensures Equal(lens[..0], v) == 0 { NoneBefore(lens, v); }
    for i := 0 to alphaSize
      invariant length[..alphaSize] == lens
      invariant base[0] == 0 && forall v :: 1 <= v < MAX_CODE_LEN ==> base[v] == Equal(lens[..i], v - 1)
      invariant forall v :: MAX_CODE_LEN <= v < base.Length ==> base[v] == old(base[v])
    {
      assert length[i] == lens[i];
      forall v ensures Equal(lens[..i + 1], v) == Equal(lens[..i], v) + (if lens[i] == v then 1 else 0) {
        EqualNext(lens, i, v);
      }
      base[length[i] + 1] := base[length[i] + 1] + 1;
    }
    assert lens[..alphaSize] == lens;
    BelowNone(lens, 0);
    for i := 1 to MAX_CODE_LEN
      invariant forall v :: 0 <= v < i ==> base[v] == Below(lens, v)
      invariant forall v :: i <= v < MAX_CODE_LEN ==> base[v] == Equal(lens, v - 1)
      invariant forall v :: MAX_CODE_LEN <= v < base.Length ==> base[v] == old(base[v])
    {
      BelowNext(lens, i - 1);
      base[i] := base[i] + base[i - 1];
    }
  }

  method FillLimits(limit: array<int>, base: array<int>, minLen: int, maxLen: int, ghost lens: seq<int>)
    requires limit != base && limit.Length >= MAX_CODE_LEN && base.Length >= MAX_CODE_LEN
             && Lengths(lens, minLen, maxLen)
    requires minLen == Shortest(lens) && maxLen == Longest(lens)
    requires forall v :: 0 <= v < MAX_CODE_LEN ==> base[v] == Below(lens, v)
    modifies limit, base
    ensures forall l :: 0 <= l < MAX_CODE_LEN ==> limit[l] == LimitAt(lens, l) && base[l] == BaseAt(lens, l)
    ensures forall l :: MAX_CODE_LEN <= l < limit.Length ==> limit[l] == old(limit[l])
    ensures forall l :: MAX_CODE_LEN <= l < base.Length ==> base[l] == old(base[l])
  {
    hide First, Equal, Below, Shortest, Longest;
    for i := 0 to MAX_CODE_LEN
      invariant forall v :: 0 <= v < i ==> limit[v] == 0
      invariant forall v :: 0 <= v < base.Length ==> base[v] == old(base[v])
      invariant forall l :: MAX_CODE_LEN <= l < limit.Length ==> limit[l] == old(limit[l])
    {
      limit[i] := 0;
    }
    FirstZero(lens, minLen, maxLen, minLen);
    var vec := 0;
    for i := minLen to maxLen + 1
      invariant vec == First(lens, i)
      invariant forall v :: 0 <= v < base.Length ==> base[v] == old(base[v])
      invariant forall v :: minLen <= v < i ==> limit[v] == Last(lens, v) - 1
      invariant forall v :: 0 <= v < minLen || i <= v < MAX_CODE_LEN ==> limit[v] == 0
      invariant forall l :: MAX_CODE_LEN <= l < limit.Length ==> limit[l] == old(limit[l])
    {
      BelowNext(lens, i);
      FirstNext(lens, i);
      vec := vec + (base[i + 1] - base[i]);
      limit[i] := vec - 1;
      vec := vec * 2;
    }
    BelowNone(lens, minLen);
    ghost var lim := limit[..];
    for i := minLen + 1 to maxLen + 1
      invariant limit[..] == lim
      invariant forall v :: minLen <= v < i ==> base[v] == First(lens, v) - Below(lens, v)
      invariant forall v :: 0 <= v < minLen || i <= v < MAX_CODE_LEN ==> base[v] == Below(lens, v)
      invariant forall l :: MAX_CODE_LEN <= l < base.Length ==> base[l] == old(base[l])
    {
      FirstNext(lens, i - 1);
      assert limit[i - 1] == lim[i - 1];
      base[i] := (limit[i - 1] + 1) * 2 - base[i];
    }
    assert forall l :: 0 <= l < limit.Length ==> limit[l] == lim[l];
  }

  lemma SymbolAtSlot(lens: seq<int>, i: int)
    requires 0 <= i < |lens|
    ensures 0 <= Slot(lens, i) < |lens| && SymbolAt(lens, Slot(lens, i)) == i
  {
    hide Slot;
    SlotsPerm(lens);
    assert Slots(lens)[i] == Slot(lens, i);
    var k := SymbolAt(lens, Slot(lens, i));
    assert Slots(lens)[k] == Slot(lens, k);
  }

  /** BZ2_hbCreateDecodeTables: what the tables held beyond the lengths and symbols in use stays. */
  method CreateDecodeTables(limit: array<int>, base: array<int>, perm: array<int>, length: array<Byte>, minLen: int,
      maxLen: int, alphaSize: int)
    requires limit != base && limit != perm && base != perm && length as object !in {limit, base, perm}
    requires 0 < alphaSize <= length.Length && alphaSize <= perm.Length && limit.Length >= MAX_CODE_LEN
             && base.Length >= MAX_CODE_LEN
    requires var lens := Ints(length[..alphaSize]);
             Lengths(lens, minLen, maxLen) && minLen == Shortest(lens) && maxLen == Longest(lens)
    modifies limit, base, perm
    ensures var lens := Ints(length[..alphaSize]);
            (forall l :: 0 <= l < MAX_CODE_LEN ==> limit[l] == LimitAt(lens, l) && base[l] == BaseAt(lens, l)) &&
            (forall k :: 0 <= k < alphaSize ==> perm[k] == SymbolAt(lens, k))
    ensures forall l :: MAX_CODE_LEN <= l < limit.Length ==> limit[l] == old(limit[l])
    ensures forall l :: MAX_CODE_LEN <= l < base.Length ==> base[l] == old(base[l])
    ensures forall k :: alphaSize <= k < perm.Length ==> perm[k] == old(perm[k])
  {
    hide First, Equal, Below, Slot, Last, Shortest, Longest, LimitAt, BaseAt, SymbolAt;
    ghost var lens := Ints(length[..alphaSize]);
    FillPerm(perm, length, minLen, maxLen, alphaSize, lens);
    ghost var p0 := perm[..];
    forall k | 0 <= k < alphaSize ensures p0[k] == SymbolAt(lens, k) {
      var i := SymbolAt(lens, k);
      assert Slot(lens, i) == k;
    }
    CountLengths(base, length, alphaSize, lens, minLen, maxLen);
    FillLimits(limit, base, minLen, maxLen, lens);
    assert perm[..] == p0;
  }

  // ---- decoding ----

  /** The bits begin with symbol i's code. */
  ghost predicate StartsWith(lens: seq<int>, p: seq<bool>, i: int) {
    0 <= i < |lens| && lens[i] >= 0 && CodeBits(lens, i) <= p
  }

  /** If the bits begin with a code, the search neither runs past it nor stops before. */
  lemma NotBefore(lens: seq<int>, minLen: int, maxLen: int, p: seq<bool>, i: int, zn: int)
    requires Lengths(lens, minLen, maxLen) && KraftSum(lens, LONGEST) <= Pow2(LONGEST)
    requires StartsWith(lens, p, i) && 0 <= zn <= lens[i]
    ensures zn < lens[i] ==> ValueOf(p[..zn]) >= Last(lens, zn)
    ensures zn == lens[i] ==> ValueOf(p[..zn]) == Code(lens, i) < Last(lens, zn)
  {
    hide Code, First, Equal, BitsOf, ValueOf, High, KraftSum, Last;
    CodeCut(lens, i, zn, LONGEST);
    assert p[..zn] == CodeBits(lens, i)[..zn];
    if zn < lens[i] {
      HighBeyond(lens, i, zn);
    } else {
      NoShift(Code(lens, i));
      CodeBelowLast(lens, i);
    }
  }

  lemma {:induction false} EqualFind(lens: seq<int>, l: int, k: nat) returns (i: int)
    requires k < Equal(lens, l)
    ensures 0 <= i < |lens| && lens[i] == l && Equal(lens[..i], l) == k
  {
    var n := |lens| - 1;
    if k < Equal(lens[..n], l) {
      i := EqualFind(lens[..n], l, k);
      assert lens[..n][..i] == lens[..i];
    } else {
      i := n;
    }
  }

  /** Past the longest length every value is beyond the (zero) limit. */
  lemma {:induction false} FirstPositive(lens: seq<int>, l: nat, zn: nat)
    requires |lens| > 0 && lens[0] == l && l < zn
    ensures First(lens, zn) > 0
    decreases zn
  {
    if l == zn - 1 {
      EqualPrefix(lens, 0, |lens|, l);
      assert lens[..|lens|] == lens;
    } else {
      FirstPositive(lens, l, zn - 1);
    }
  }

  /** A search that stops has found a code, in the slot that it says. */
  lemma StopsAt(lens: seq<int>, p: seq<bool>, zn: nat) returns (i: int)
    requires |lens| > 0 && Lengths(lens, Shortest(lens), Longest(lens)) && Shortest(lens) <= zn < MAX_CODE_LEN
             && zn <= |p|
    requires First(lens, zn) <= ValueOf(p[..zn]) <= LimitAt(lens, zn)
    ensures StartsWith(lens, p, i) && lens[i] == zn && ValueOf(p[..zn]) - BaseAt(lens, zn) == Slot(lens, i)
  {
    hide Equal, Below, First, ValueOf, BitsOf, Shortest, Longest;
    if zn > Longest(lens) {
      FirstPositive(lens, lens[0], zn);
      assert false;
    } else {
      i := EqualFind(lens, zn, ValueOf(p[..zn]) - First(lens, zn));
      SlotNext(lens, i);
      BitsValue(p[..zn]);
      assert CodeBits(lens, i) == p[..zn];
    }
  }

  /** One that does not stop goes on among the codes that are longer. */
  lemma GoesOn(lens: seq<int>, p: seq<bool>, zn: nat)
    requires |lens| > 0 && Lengths(lens, Shortest(lens), Longest(lens)) && Shortest(lens) <= zn < MAX_CODE_LEN
             && zn < |p|
    requires First(lens, zn) <= ValueOf(p[..zn]) && LimitAt(lens, zn) < ValueOf(p[..zn])
    ensures First(lens, zn + 1) <= ValueOf(p[..zn + 1])
  {
    assert p[..zn + 1][..zn] == p[..zn];
    hide Equal, ValueOf, Shortest, Longest;
    FirstNext(lens, zn);
    ValueGrows(p, zn);
    if zn > Longest(lens) { EqualNone(lens, zn); }
  }

  lemma ValueGrows(p: seq<bool>, zn: nat)
    requires zn < |p|
    ensures ValueOf(p[..zn + 1]) == 2 * ValueOf(p[..zn]) + (if p[zn] then 1 else 0)
  {
    assert p[..zn + 1][..zn] == p[..zn];
  }
}
