/** The length and distance codes of section 3.2.5 of RFC 1951: each length and each distance has one code and one
    value of its extra bits. */
module InflateRanges {
  import opened Bits
  import opened InflateTable
  import InflateItems

  /** Ranges that lie end to end. */
  ghost predicate EndToEnd(base: seq<nat>, size: seq<nat>) {
    |base| == |size| && forall i :: 0 <= i < |base| - 1 ==> base[i] + size[i] == base[i + 1]
  }

  lemma {:induction false} Ordered(base: seq<nat>, size: seq<nat>, i: nat, j: nat)
    requires EndToEnd(base, size) && i < j < |base|
    ensures base[i] + size[i] <= base[j]
    decreases j
  {
    if i < j - 1 {
      Ordered(base, size, i, j - 1);
      assert base[j - 1] + size[j - 1] == base[j];
    }
  }

  lemma OnlyOne(base: seq<nat>, size: seq<nat>, i: nat, x: nat, j: nat, y: nat)
    requires EndToEnd(base, size) && i < |base| && j < |base| && x < size[i] && y < size[j]
    requires base[i] + x == base[j] + y
    ensures i == j && x == y
  {
    if i < j { Ordered(base, size, i, j); }
    if j < i { Ordered(base, size, j, i); }
  }

  lemma Somewhere(base: seq<nat>, size: seq<nat>, v: nat) returns (i: nat, x: nat)
    requires EndToEnd(base, size) && 0 < |base| && base[0] <= v < base[|base| - 1] + size[|base| - 1]
    ensures i < |base| && x < size[i] && base[i] + x == v
  {
    i := 0;
    while v >= base[i] + size[i]
      invariant i < |base| && base[i] <= v
      decreases |base| - i
    {
      assert i < |base| - 1;
      i := i + 1;
    }
    x := v - base[i];
  }

  // ---- lengths ----

  /** The code sym with x in its extra bits stands for the length len. */
  ghost predicate LengthIs(sym: nat, x: nat, len: nat) {
    257 <= sym < 286 && 16 <= LengthOp(sym) < 32 && x < Pow2(LengthOp(sym) - 16) && len == LengthBase(sym) + x
  }

  /** The length codes but the last; that one stands by itself. */
  ghost function LengthBases(): (s: seq<nat>)
    ensures |s| == 28
  {
    LBASE[..28]
  }

  ghost function LengthSizes(): (s: seq<nat>)
    ensures |s| == 28 && forall i: nat :: i < 28 ==> LEXT[i] >= 16 && s[i] == Pow2(LEXT[i] - 16)
  {
    assert forall i: nat :: i < 28 ==> LEXT[i] >= 16;
    seq(28, i requires 0 <= i < 28 => Pow2(LEXT[i] - 16))
  }

  /** A code's range, as long as its extra bits say, ends where the next begins. */
  lemma LengthStep(i: nat)
    requires i < 27
    ensures LEXT[i] >= 16 && LBASE[i] + Pow2(LEXT[i] - 16) == LBASE[i + 1]
  {
    InflateItems.Powers();
    hide Pow2;
  }

  lemma LengthsEndToEnd()
    ensures EndToEnd(LengthBases(), LengthSizes()) && LengthBases()[0] == 3
            && LengthBases()[27] + LengthSizes()[27] == 259
  {
    hide Pow2, LengthSizes;
    LastLength();
    forall i: nat | i < 27 ensures LengthBases()[i] + LengthSizes()[i] == LengthBases()[i + 1] { LengthStep(i); }
  }

  /** Each length from 3 to 258 has a code. */
  lemma LengthHasCode(len: nat) returns (sym: nat, x: nat)
    requires 3 <= len <= 258
    ensures LengthIs(sym, x, len)
  {
    LengthsEndToEnd();
    hide EndToEnd, Pow2, LengthBases, LengthSizes;
    var i;
    i, x := Somewhere(LengthBases(), LengthSizes(), len);
    sym := 257 + i;
    LengthAt(i);
  }

  lemma LengthAt(i: nat)
    requires i < 28
    ensures 16 <= LengthOp(257 + i) < 32 && LengthBase(257 + i) == LengthBases()[i]
            && LengthSizes()[i] == Pow2(LengthOp(257 + i) - 16)
  {
  }

  /** Where the codes before the last two end. */
  lemma LengthRange(sym: nat, x: nat, len: nat)
    requires LengthIs(sym, x, len)
    ensures 3 <= len <= 258 && (sym < 284 ==> len < 227) && (sym == 284 ==> x < 32 && len == 227 + x)
            && (sym == 285 ==> x == 0 && len == 258)
  {
    LengthsEndToEnd();
    LastLength();
    hide EndToEnd, Pow2, LengthBases, LengthSizes, LengthOp, LengthBase;
    if sym < 285 { LengthAt(sym - 257); }
    if sym < 284 { Ordered(LengthBases(), LengthSizes(), sym - 257, 27); }
    if 257 < sym < 285 { Ordered(LengthBases(), LengthSizes(), 0, sym - 257); }
  }

  lemma SameLength(sym: nat, x: nat, sym': nat, x': nat, len: nat)
    requires LengthIs(sym, x, len) && LengthIs(sym', x', len) && sym < 285 && sym' < 285
    ensures sym == sym' && x == x'
  {
    LengthsEndToEnd();
    hide EndToEnd, Pow2, LengthBases, LengthSizes, LengthOp, LengthBase;
    LengthAt(sym - 257);
    LengthAt(sym' - 257);
    OnlyOne(LengthBases(), LengthSizes(), sym - 257, x, sym' - 257, x');
  }

  /** None but 258 has two; that one has the last code to itself, and the end of the range before it. */
  lemma LengthHasOne(sym: nat, x: nat, sym': nat, x': nat, len: nat)
    requires LengthIs(sym, x, len) && LengthIs(sym', x', len)
    ensures len <= 257 ==> sym == sym' && x == x'
    ensures len == 258 ==> (sym == 285 && x == 0) || (sym == 284 && x == 31)
    ensures 3 <= len <= 258 && LengthIs(285, 0, 258)
  {
    LastLength();
    LengthRange(sym, x, len);
    LengthRange(sym', x', len);
    hide Pow2, LengthSizes;
    if sym < 285 && sym' < 285 { SameLength(sym, x, sym', x', len); }
  }

  lemma LastLength()
    ensures LengthOp(285) == 16 && LengthBase(285) == 258 && Pow2(0) == 1
    ensures LengthBases()[27] == 227 && LengthSizes()[27] == 32
  {
    InflateItems.Powers();
    hide Pow2;
  }

  // ---- distances ----

  ghost predicate DistanceIs(sym: nat, x: nat, dist: nat) {
    sym < 30 && 16 <= DistOp(sym) < 32 && x < Pow2(DistOp(sym) - 16) && dist == DistBase(sym) + x
  }

  ghost function DistanceBases(): (s: seq<nat>)
    ensures |s| == 30
  {
    DBASE[..30]
  }

  ghost function DistanceSizes(): (s: seq<nat>)
    ensures |s| == 30 && forall i: nat :: i < 30 ==> DEXT[i] >= 16 && s[i] == Pow2(DEXT[i] - 16)
  {
    assert forall i: nat :: i < 30 ==> DEXT[i] >= 16;
    seq(30, i requires 0 <= i < 30 => Pow2(DEXT[i] - 16))
  }

  lemma DistanceStep(i: nat)
    requires i < 29
    ensures DEXT[i] >= 16 && DBASE[i] + Pow2(DEXT[i] - 16) == DBASE[i + 1]
  {
    InflateItems.Powers();
    hide Pow2;
  }

  lemma LastDistance()
    ensures DistanceBases()[29] == 24577 && DistanceSizes()[29] == 8192
  {
    InflateItems.Powers();
    hide Pow2;
  }

  lemma DistancesEndToEnd()
    ensures EndToEnd(DistanceBases(), DistanceSizes()) && DistanceBases()[0] == 1
            && DistanceBases()[29] + DistanceSizes()[29] == 32769
  {
    hide Pow2, DistanceSizes;
    LastDistance();
    forall i: nat | i < 29 ensures DistanceBases()[i] + DistanceSizes()[i] == DistanceBases()[i + 1] {
      DistanceStep(i);
    }
  }

  lemma DistanceAt(i: nat)
    requires i < 30
    ensures 16 <= DistOp(i) < 32 && DistBase(i) == DistanceBases()[i] && DistanceSizes()[i] == Pow2(DistOp(i) - 16)
  {
  }

  /** Each distance from 1 to 32768 has a code. */
  lemma DistanceHasCode(dist: nat) returns (sym: nat, x: nat)
    requires 1 <= dist <= 32768
    ensures DistanceIs(sym, x, dist)
  {
    DistancesEndToEnd();
    hide EndToEnd, Pow2, DistanceBases, DistanceSizes, DistOp, DistBase;
    sym, x := Somewhere(DistanceBases(), DistanceSizes(), dist);
    DistanceAt(sym);
  }

  /** And no more than one. */
  lemma DistanceHasOne(sym: nat, x: nat, sym': nat, x': nat, dist: nat)
    requires DistanceIs(sym, x, dist) && DistanceIs(sym', x', dist)
    ensures sym == sym' && x == x' && 1 <= dist <= 32768
  {
    DistancesEndToEnd();
    hide EndToEnd, Pow2, DistanceBases, DistanceSizes, DistOp, DistBase;
    DistanceAt(sym);
    DistanceAt(sym');
    OnlyOne(DistanceBases(), DistanceSizes(), sym, x, sym', x');
    if sym > 0 { Ordered(DistanceBases(), DistanceSizes(), 0, sym); }
    if sym < 29 { Ordered(DistanceBases(), DistanceSizes(), sym, 29); }
  }
}
