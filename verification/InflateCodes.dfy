/** The codes of section 3.2.2 of RFC 1951, as they follow from the code lengths:
    their order, their values, and the share of the code space they take. */
module InflateCodes {
  import opened Bits
  import opened Rotations
  import opened Permutations
  import opened Radix
  import opened BwtTheory
  import opened Reversal

  const MAXBITS := 15

  ghost predicate Lens(lens: seq<int>) {
    forall s :: 0 <= s < |lens| ==> 0 <= lens[s] <= MAXBITS
  }

  /** The smallest code of length l: no codes of length zero. */
  ghost function FirstCode(lens: seq<int>, l: nat): (c: nat) {
    if l <= 1 then 0 else 2 * (FirstCode(lens, l - 1) + Equal(lens, l - 1))
  }

  /** Codes of one length go up with the symbol. */
  ghost function CodeOf(lens: seq<int>, s: int): (c: nat)
    requires 0 <= s < |lens| && lens[s] > 0
  {
    FirstCode(lens, lens[s]) + Equal(lens[..s], lens[s])
  }

  /** The code as it comes in the stream, low bit first. */
  ghost function StreamCode(lens: seq<int>, s: int): (c: nat)
    requires 0 <= s < |lens| && lens[s] > 0
  {
    Rev(CodeOf(lens, s), lens[s])
  }

  /** The share of the code space that all codes of at most M bits take, in units of 2^-M. */
  ghost function CodeSpace(lens: seq<int>, M: nat): (c: nat) {
    if lens == [] then 0
    else CodeSpace(lens[..|lens| - 1], M) + (if 0 < lens[|lens| - 1] <= M then Pow2(M - lens[|lens| - 1]) else 0)
  }

  ghost function Used(lens: seq<int>, l: nat): nat
    requires l > 0
  {
    FirstCode(lens, l) + Equal(lens, l)
  }

  lemma {:induction false} FirstPrefix(lens: seq<int>, l: nat)
    requires lens != [] && l > 0
    ensures var k := |lens| - 1;
            FirstCode(lens, l) == FirstCode(lens[..k], l) + (if 0 < lens[k] < l then Pow2(l - lens[k]) else 0)
    decreases l
  {
    if l > 1 { FirstPrefix(lens, l - 1); }
  }

  lemma {:induction false} UsedIsSpace(lens: seq<int>, l: nat)
    requires l > 0
    ensures Used(lens, l) == CodeSpace(lens, l)
  {
    if lens == [] {
      FirstNone(l);
    } else {
      UsedIsSpace(lens[..|lens| - 1], l);
      FirstPrefix(lens, l);
    }
  }

  lemma {:induction false} FirstNone(l: nat)
    ensures FirstCode([], l) == 0
  {
    if l > 1 { FirstNone(l - 1); }
  }

  lemma UsedNext(lens: seq<int>, l: nat)
    requires l > 0
    ensures Used(lens, l + 1) == 2 * Used(lens, l) + Equal(lens, l + 1)
  {
  }

  // ---- symbols in code order ----

  /** The symbols with a code, by length and then by number. */
  ghost predicate Sorted(lens: seq<int>, work: seq<int>) {
    && Lens(lens)
    && (forall k :: 0 <= k < |work| ==> 0 <= work[k] < |lens| && lens[work[k]] > 0)
    && (forall j, k :: 0 <= j < k < |work| ==> Earlier(lens, work[j], work[k]))
    && (forall s :: 0 <= s < |lens| && lens[s] > 0 ==> s in work)
  }

  ghost predicate Earlier(lens: seq<int>, s: int, t: int)
    requires 0 <= s < |lens| && 0 <= t < |lens|
  {
    lens[s] < lens[t] || (lens[s] == lens[t] && s < t)
  }

  /** Where symbol s goes. */
  ghost function Rank(lens: seq<int>, s: int): int
    requires 0 <= s < |lens|
  {
    Slot(lens, s) - Below(lens, 1)
  }

  lemma RankBounds(lens: seq<int>, s: int)
    requires 0 <= s < |lens| && Lens(lens) && lens[s] > 0
    ensures 0 <= Rank(lens, s) < |lens| - Below(lens, 1)
    ensures Rank(lens, s) == Below(lens, lens[s]) - Below(lens, 1) + Equal(lens[..s], lens[s])
  {
    hide Below, Equal;
    SlotBounds(lens, s);
    BelowMono(lens, 1, lens[s]);
  }

  lemma RanksSort(lens: seq<int>, work: seq<int>)
    requires Lens(lens) && |work| == |lens| - Below(lens, 1)
    requires forall s :: 0 <= s < |lens| && lens[s] > 0 ==> 0 <= Rank(lens, s) < |work| && work[Rank(lens, s)] == s
    ensures Sorted(lens, work) && forall k :: 0 <= k < |work| ==> Rank(lens, work[k]) == k
  {
    hide Below, Equal, Slot;
    SlotsPerm(lens);
    forall k | 0 <= k < |work| ensures 0 <= work[k] < |lens| && lens[work[k]] > 0 && Rank(lens, work[k]) == k {
      var s := PermSurjective(Slots(lens), |lens|, k + Below(lens, 1));
      SlotBounds(lens, s);
      BelowMono(lens, if lens[s] <= 0 then lens[s] + 1 else 1, 1);
    }
    forall j, k | 0 <= j < k < |work| ensures Earlier(lens, work[j], work[k]) { SlotOrder(lens, work[j], work[k]); }
    forall s | 0 <= s < |lens| && lens[s] > 0 ensures s in work { assert work[Rank(lens, s)] == s; }
  }

  // ---- values ----

  /** The left-aligned value, in m bits, of the k-th code: the space all earlier codes take. */
  ghost function Value(lens: seq<int>, work: seq<int>, m: nat, k: nat): (v: nat)
    requires Sorted(lens, work) && k <= |work|
  {
    if k == 0 then 0
    else Value(lens, work, m, k - 1) + (if lens[work[k - 1]] <= m then Pow2(m - lens[work[k - 1]]) else 0)
  }

  /** From one symbol of a length to the next of that length. */
  lemma {:induction false} EqualBetween(lens: seq<int>, s: int, t: int, v: int)
    requires 0 <= s < t <= |lens| && lens[s] == v && forall i :: s < i < t ==> lens[i] != v
    ensures Equal(lens[..t], v) == Equal(lens[..s], v) + 1
    decreases t
  {
    assert lens[..t][..t - 1] == lens[..t - 1];
    if s < t - 1 { EqualBetween(lens, s, t - 1, v); }
  }

  /** No codes between two lengths: the code only shifts. */
  lemma {:induction false} FirstGap(lens: seq<int>, l: nat, l': nat)
    requires 0 < l < l' && forall i :: 0 <= i < |lens| ==> !(l < lens[i] < l')
    ensures FirstCode(lens, l') == Used(lens, l) * Pow2(l' - l)
    decreases l'
  {
    if l + 1 == l' {
    } else {
      FirstGap(lens, l, l' - 1);
      EqualNone(lens, l' - 1);
      Doubled(Used(lens, l), Pow2(l' - 1 - l));
    }
  }

  lemma {:induction false} FirstStart(lens: seq<int>, l: nat)
    requires forall i :: 0 <= i < |lens| ==> !(0 < lens[i] < l)
    ensures FirstCode(lens, l) == 0
    decreases l
  {
    if l > 1 {
      FirstStart(lens, l - 1);
      EqualNone(lens, l - 1);
    }
  }

  /** No symbol with a code comes between two neighbours in the order. */
  lemma Neighbours(lens: seq<int>, work: seq<int>, k: nat, s: int)
    requires Sorted(lens, work) && k + 1 < |work| && 0 <= s < |lens| && lens[s] > 0
    ensures !(Earlier(lens, work[k], s) && Earlier(lens, s, work[k + 1]))
  {
    var q :| 0 <= q < |work| && work[q] == s;
    if q < k { assert Earlier(lens, work[q], work[k]); }
    if q > k + 1 { assert Earlier(lens, work[k + 1], work[q]); }
  }

  lemma BeforeFirst(lens: seq<int>, work: seq<int>, s: int)
    requires Sorted(lens, work) && 0 < |work| && 0 <= s < |lens| && lens[s] > 0
    ensures !Earlier(lens, s, work[0])
  {
    var q :| 0 <= q < |work| && work[q] == s;
    if q > 0 { assert Earlier(lens, work[0], work[q]); }
  }

  lemma AfterLast(lens: seq<int>, work: seq<int>, s: int)
    requires Sorted(lens, work) && 0 < |work| && 0 <= s < |lens| && lens[s] > 0
    ensures !Earlier(lens, work[|work| - 1], s)
  {
    var q :| 0 <= q < |work| && work[q] == s;
    if q < |work| - 1 { assert Earlier(lens, work[q], work[|work| - 1]); }
  }

  /** The next code is one more, shifted to its length. */
  lemma NextCode(lens: seq<int>, work: seq<int>, k: nat)
    requires Sorted(lens, work) && k + 1 < |work|
    ensures lens[work[k]] <= lens[work[k + 1]]
    ensures CodeOf(lens, work[k + 1]) == (CodeOf(lens, work[k]) + 1) * Pow2(lens[work[k + 1]] - lens[work[k]])
  {
    hide Equal, FirstCode, Sorted;
    SortedPair(lens, work, k, k + 1);
    var s, t := work[k], work[k + 1];
    var l, l' := lens[s], lens[t];
    forall i | 0 <= i < |lens| && lens[i] > 0 ensures !(Earlier(lens, s, i) && Earlier(lens, i, t)) {
      Neighbours(lens, work, k, i);
    }
    if l == l' {
      EqualBetween(lens, s, t, l);
    } else {
      assert lens[..|lens|] == lens;
      EqualBetween(lens, s, |lens|, l);
      assert forall i :: 0 <= i < |lens[..t]| ==> lens[..t][i] == lens[i];
      EqualNone(lens[..t], l');
      FirstGap(lens, l, l');
    }
  }

  lemma SortedPair(lens: seq<int>, work: seq<int>, j: nat, k: nat)
    requires Sorted(lens, work) && j <= k < |work|
    ensures 0 <= work[j] < |lens| && 0 <= work[k] < |lens| && 0 < lens[work[j]] <= lens[work[k]] <= MAXBITS
    ensures j < k ==> Earlier(lens, work[j], work[k])
  {
  }

  lemma {:induction false} ValueIsCode(lens: seq<int>, work: seq<int>, m: nat, k: nat)
    requires Sorted(lens, work) && k < |work| && forall s :: 0 <= s < |lens| ==> lens[s] <= m
    ensures 0 < lens[work[k]] <= m
    ensures Value(lens, work, m, k) == CodeOf(lens, work[k]) * Pow2(m - lens[work[k]])
  {
    hide Sorted, Equal, FirstCode, CodeOf;
    SortedPair(lens, work, k, k);
    if k == 0 {
      FirstIsZero(lens, work);
    } else {
      SortedPair(lens, work, k - 1, k);
      ValueIsCode(lens, work, m, k - 1);
      NextCode(lens, work, k - 1);
      var l, l' := lens[work[k - 1]], lens[work[k]];
      var c := CodeOf(lens, work[k - 1]);
      Pow2Add(l' - l, m - l');
      Spread(c, Pow2(l' - l), Pow2(m - l'));
    }
  }

  /** The first code of all is zero. */
  lemma FirstIsZero(lens: seq<int>, work: seq<int>)
    requires Sorted(lens, work) && 0 < |work|
    ensures 0 <= work[0] < |lens| && lens[work[0]] > 0 && CodeOf(lens, work[0]) == 0
  {
    var s := work[0];
    forall i | 0 <= i < |lens| && lens[i] > 0 ensures !Earlier(lens, i, s) { BeforeFirst(lens, work, i); }
    hide Sorted, Equal, FirstCode;
    assert forall i :: 0 <= i < |lens[..s]| ==> lens[..s][i] == lens[i];
    EqualNone(lens[..s], lens[s]);
    FirstStart(lens, lens[s]);
  }

  lemma Spread(c: nat, p: nat, q: nat)
    ensures c * (p * q) + p * q == (c + 1) * p * q
  {
  }

  /** All codes together take the space the lengths say. */
  lemma ValueTotal(lens: seq<int>, work: seq<int>, m: nat)
    requires Sorted(lens, work) && 0 < |work| && lens[work[|work| - 1]] == m
    ensures m > 0 && (forall s :: 0 <= s < |lens| ==> lens[s] <= m)
    ensures Value(lens, work, m, |work|) == Used(lens, m)
  {
    var n := |work|;
    SortedPair(lens, work, n - 1, n - 1);
    var s := work[n - 1];
    forall i | 0 <= i < |lens| ensures lens[i] <= m && (lens[i] == m ==> i <= s) {
      if lens[i] > 0 { AfterLast(lens, work, i); }
    }
    ValueIsCode(lens, work, m, n - 1);
    hide Sorted, Equal, FirstCode;
    assert lens[..|lens|] == lens;
    EqualBetween(lens, s, |lens|, m);
    assert Pow2(0) == 1;
  }

  lemma {:induction false} ValueMono(lens: seq<int>, work: seq<int>, m: nat, j: nat, k: nat)
    requires Sorted(lens, work) && j <= k <= |work|
    ensures Value(lens, work, m, j) <= Value(lens, work, m, k)
    decreases k
  {
    if j < k { ValueMono(lens, work, m, j, k - 1); }
  }

  /** Past the longest length the space only doubles. */
  lemma {:induction false} UsedBeyond(lens: seq<int>, m: nat, l: nat)
    requires 0 < m <= l && forall s :: 0 <= s < |lens| ==> lens[s] <= m
    ensures Used(lens, l) == Used(lens, m) * Pow2(l - m)
    decreases l
  {
    if l > m {
      UsedBeyond(lens, m, l - 1);
      EqualNone(lens, l);
      Doubled(Used(lens, m), Pow2(l - 1 - m));
    }
  }
}
