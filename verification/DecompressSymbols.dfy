/** The decompressor on the bits the compressor writes: codes, and what the symbols do. */
module DecompressSymbols {
  import opened Bits
  import opened BitStream
  import opened HuffmanForest
  import opened HuffmanCodes
  import opened Radix
  import opened BwtTheory
  import opened MtfEncode
  import opened BlockFormat
  import opened BlockParts
  import opened DecompressMachine
  import opened DecompressSteps
  import opened DecompressRun
  import opened DecompressHeader
  import MTF = MoveToFront
  import MtfDecode

  /** The table decodes these lengths. */
  ghost predicate RowFor(t: Decoding, lens: seq<int>) {
    && Row(t) && 0 < |lens| <= MAX_ALPHA && t.minLen == Shortest(lens)
    && (forall l :: 0 <= l < MAX_CODE_LEN ==> t.limit[l] == LimitAt(lens, l) && t.base[l] == BaseAt(lens, l))
    && (forall k :: 0 <= k < |lens| ==> t.perm[k] == SymbolAt(lens, k))
  }

  lemma NewRowFor(was: Decoding, lens: seq<int>, n: nat)
    requires Row(was) && FullRow(lens, n) && 0 < n <= MAX_ALPHA
    ensures RowFor(NewRow(was, lens), lens)
  {
    hide Shortest, LimitAt, BaseAt, SymbolAt;
    NewRowIs(was, lens, n);
  }

  lemma LengthBetween(lens: seq<int>, alphaSize: nat, i: int)
    requires Usable(lens, alphaSize) && 0 <= i < |lens|
    ensures Lengths(lens, Shortest(lens), Longest(lens)) && 1 <= Shortest(lens) <= lens[i] <= Longest(lens) <= LONGEST
  {
    UsableLengths(lens, alphaSize);
  }

  lemma CodeIsSlot(lens: seq<int>, i: int)
    requires 0 <= i < |lens| && Lengths(lens, Shortest(lens), Longest(lens))
    ensures lens[i] >= 0 && Code(lens, i) - BaseAt(lens, lens[i]) == Slot(lens, i)
  {
    hide Below, Equal, First;
    SlotNext(lens, i);
  }

  /** Fewer bits than the code has are beyond the limit. */
  lemma LimitPassed(lens: seq<int>, alphaSize: nat, p: seq<bool>, i: int, zn: nat)
    requires Usable(lens, alphaSize) && StartsWith(lens, p, i) && Shortest(lens) <= zn < lens[i] && zn <= |p|
    ensures zn <= LONGEST && LimitAt(lens, zn) < ValueOf(p[..zn])
  {
    hide CodeBits, Shortest, Longest, ValueOf, Last, KraftSum, Lengths;
    LengthBetween(lens, alphaSize, i);
    NotBefore(lens, Shortest(lens), Longest(lens), p, i, zn);
  }

  /** The whole code is not, and lies at its symbol. */
  lemma LimitReached(lens: seq<int>, alphaSize: nat, p: seq<bool>, i: int, zn: nat)
    requires Usable(lens, alphaSize) && StartsWith(lens, p, i) && zn == lens[i] <= |p|
    ensures zn <= LONGEST && LimitAt(lens, zn) >= ValueOf(p[..zn])
    ensures 0 <= ValueOf(p[..zn]) - BaseAt(lens, zn) < |lens|
            && SymbolAt(lens, ValueOf(p[..zn]) - BaseAt(lens, zn)) == i
  {
    hide CodeBits, Shortest, Longest, ValueOf, Last, KraftSum, Lengths, Code, BaseAt, SymbolAt, Slot;
    LengthBetween(lens, alphaSize, i);
    NotBefore(lens, Shortest(lens), Longest(lens), p, i, zn);
    CodeIsSlot(lens, i);
    SymbolAtSlot(lens, i);
  }

  /** What the loop does with the first zn bits of a code. */
  lemma CheckIs(c: Core, site: nat, lens: seq<int>, alphaSize: nat, p: seq<bool>, i: int)
    requires c.gSel < |c.rows| && RowFor(c.rows[c.gSel], lens) && Usable(lens, alphaSize) && StartsWith(lens, p, i)
    requires Shortest(lens) <= c.zn <= lens[i] && c.zn <= |p| && c.zvec == ValueOf(p[..c.zn])
    ensures CheckCode(c, site) == if c.zn < lens[i] then c.(zn := c.zn + 1, at := Mtf(site, true))
                                                         else c.(at := Decoded(site, i))
  {
    hide Usable, CodeBits, Shortest, ValueOf, LimitAt, BaseAt, SymbolAt;
    if c.zn < lens[i] { LimitPassed(lens, alphaSize, p, i, c.zn); } else { LimitReached(lens, alphaSize, p, i, c.zn); }
  }

  // ---- one code ----

  /** At a code, with the table that decodes these lengths. */
  ghost predicate AtCode(s: Saved, lens: seq<int>, alphaSize: nat, site: nat, more: bool) {
    && Ready(s) && s.core.at == Mtf(site, more) && s.core.gSel < |s.core.rows| && RowFor(s.core.rows[s.core.gSel], lens)
       && Usable(lens, alphaSize)
  }

  ghost function Symboled(s: Saved, lens: seq<int>, site: nat, i: int): Saved
    requires 0 <= i < |lens| && lens[i] >= 0
  {
    With(s, s.core.(zn := lens[i], zvec := ValueOf(CodeBits(lens, i)), at := Decoded(site, i)))
  }

  /** The rest of a code, a bit at a time. */
  lemma {:induction false} MoreRun(s: Saved, lens: seq<int>, alphaSize: nat, site: nat, i: int, rest: seq<bool>)
    requires AtCode(s, lens, alphaSize, site, true) && 0 <= i < |lens| && Shortest(lens) < s.core.zn <= lens[i]
    requires s.core.zvec == ValueOf(CodeBits(lens, i)[..s.core.zn - 1])
    ensures var u := Symboled(s, lens, site, i);
            Sane(u) && Ready(Settle(u)) && Run(s, CodeBits(lens, i)[s.core.zn - 1..] + rest) == Run(Settle(u), rest)
    decreases lens[i] - s.core.zn
  {
    hide Run, AtCode, CodeBits, Shortest, Longest, ValueOf, Settle, Sane, Ready, Usable, Step, Lengths;
    AtCodeFacts(s, lens, alphaSize, site, true, i);
    var p, zn := CodeBits(lens, i), s.core.zn;
    CodeBit(s, p[zn - 1], p[zn..] + rest, site);
    var v: nat := if p[zn - 1] then 1 else 0;
    assert p[zn - 1..] + rest == [p[zn - 1]] + (p[zn..] + rest);
    ValueGrows(p, zn - 1);
    CodeStep(s, lens, alphaSize, site, true, i, v);
    if zn < lens[i] {
      MoreRun(Longer(s, p, site), lens, alphaSize, site, i, rest);
    } else {
      assert p[zn..] + rest == rest;
    }
  }

  lemma AtCodeFacts(s: Saved, lens: seq<int>, alphaSize: nat, site: nat, more: bool, i: int)
    requires AtCode(s, lens, alphaSize, site, more) && 0 <= i < |lens|
    ensures Ready(s) && s.core.at == Mtf(site, more) && 1 <= Shortest(lens) <= lens[i] <= LONGEST
            && |CodeBits(lens, i)| == lens[i]
  {
    LengthBetween(lens, alphaSize, i);
    hide Usable, RowFor, Ready, Shortest, Longest;
  }

  lemma CodeBit(s: Saved, bit: bool, rest: seq<bool>, site: nat)
    requires Ready(s) && s.core.at == Mtf(site, true)
    ensures var v := if bit then 1 else 0; Ready(Step(s, v)) && Run(s, [bit] + rest) == Run(Step(s, v), rest)
  {
    hide Run, Step, Ready;
    BitRun(s, bit, rest);
  }

  /** Asking for one more bit. */
  ghost function Longer(s: Saved, p: seq<bool>, site: nat): Saved
    requires s.core.zn <= |p|
  {
    With(s, s.core.(zn := s.core.zn + 1, zvec := ValueOf(p[..s.core.zn]), at := Mtf(site, true)))
  }

  lemma AtCodeParts(s: Saved, lens: seq<int>, alphaSize: nat, site: nat, more: bool)
    requires AtCode(s, lens, alphaSize, site, more)
    ensures Sane(s) && s.core.at == Mtf(site, more) && Usable(lens, alphaSize)
    ensures s.core.gSel < |s.core.rows| && RowFor(s.core.rows[s.core.gSel], lens)
  {
    hide RowFor, Usable, Sane;
  }

  lemma AtCodeIs(s: Saved, lens: seq<int>, alphaSize: nat, site: nat, more: bool)
    requires Ready(s) && s.core.at == Mtf(site, more) && Usable(lens, alphaSize)
    requires s.core.gSel < |s.core.rows| && RowFor(s.core.rows[s.core.gSel], lens)
    ensures AtCode(s, lens, alphaSize, site, more)
  {
    hide RowFor, Usable, Ready;
  }

  /** What the bits so far lead to. */
  lemma CodeChecked(s: Saved, lens: seq<int>, alphaSize: nat, site: nat, more: bool, i: int, v: nat)
    requires AtCode(s, lens, alphaSize, site, more) && 0 <= i < |lens| && 0 <= lens[i]
             && Shortest(lens) <= s.core.zn <= lens[i]
    requires (if more then s.core.zvec * 2 + v else v) == ValueOf(CodeBits(lens, i)[..s.core.zn])
    ensures Sane(s) && Sane(With(s, StepCore(s.core, v)))
    ensures var c := s.core.(zvec := ValueOf(CodeBits(lens, i)[..s.core.zn]));
            StepCore(s.core, v) == if c.zn < lens[i] then c.(zn := c.zn + 1, at := Mtf(site, true))
                                                          else c.(at := Decoded(site, i))
  {
    hide AtCode, RowFor, Usable, CodeBits, Shortest, ValueOf, CheckCode, SaneCore, StepCore;
    AtCodeParts(s, lens, alphaSize, site, more);
    AfterCore(s, v);
    var p := CodeBits(lens, i);
    var c := s.core.(zvec := ValueOf(p[..s.core.zn]));
    CheckIs(c, site, lens, alphaSize, p, i);
    StepIs(s, v, site, c, lens);
  }

  /** The bits so far are the whole code, or one more is asked for. */
  lemma CodeStep(s: Saved, lens: seq<int>, alphaSize: nat, site: nat, more: bool, i: int, v: nat)
    requires AtCode(s, lens, alphaSize, site, more) && 0 <= i < |lens| && 0 <= lens[i]
             && Shortest(lens) <= s.core.zn <= lens[i]
    requires (if more then s.core.zvec * 2 + v else v) == ValueOf(CodeBits(lens, i)[..s.core.zn])
    ensures Sane(s)
    ensures s.core.zn < lens[i] ==>
              Step(s, v) == Longer(s, CodeBits(lens, i), site) && AtCode(Step(s, v), lens, alphaSize, site, true)
    ensures s.core.zn == lens[i] ==>
              var u := Symboled(s, lens, site, i); Sane(u) && Step(s, v) == Settle(u) && Ready(Settle(u))
  {
    hide AtCode, RowFor, Usable, CodeBits, Shortest, ValueOf, Settle, Sane, StepCore;
    AtCodeParts(s, lens, alphaSize, site, more);
    CodeChecked(s, lens, alphaSize, site, more, i, v);
    StepSane(s, v);
    var p, zn := CodeBits(lens, i), s.core.zn;
    if zn < lens[i] {
      var t := Longer(s, p, site);
      SettleMtf(t);
      AtCodeIs(t, lens, alphaSize, site, true);
    } else {
      assert p[..zn] == p;
    }
  }

  lemma StepIs(s: Saved, v: nat, site: nat, c: Core, lens: seq<int>)
    requires Sane(s) && s.core.at.Mtf? && s.core.at.site == site
    requires c == s.core.(zvec := if s.core.at.more then s.core.zvec * 2 + v else v) && c.gSel < |c.rows|
             && RowFor(c.rows[c.gSel], lens)
    ensures StepCore(s.core, v) == CheckCode(c, site)
  {
    hide CheckCode;
  }

  lemma SettleMtf(s: Saved)
    requires Sane(s) && s.core.at.Mtf?
    ensures Settle(s) == s && Ready(s)
  {
    hide SaneCore;
  }

  lemma FirstBits(s: Saved, p: seq<bool>, n: nat, rest: seq<bool>)
    requires Ready(s) && s.core.at.Mtf? && Want(s.core) == n <= |p|
    ensures Ready(Step(s, ValueOf(p[..n]))) && Run(s, p + rest) == Run(Step(s, ValueOf(p[..n])), p[n..] + rest)
  {
    hide Run, Ready, Step, ValueOf, BitsOf, Pow2;
    ValueBound(p[..n]);
    BitsValue(p[..n]);
    assert p + rest == p[..n] + (p[n..] + rest);
    TakeRun(s, n, ValueOf(p[..n]), p[n..] + rest);
  }

  /** A whole code leads to its symbol. */
  lemma CodeRun(s: Saved, lens: seq<int>, alphaSize: nat, site: nat, i: int, rest: seq<bool>)
    requires AtCode(s, lens, alphaSize, site, false) && s.core.zn == Shortest(lens) && 0 <= i < |lens|
    ensures lens[i] >= 0
    ensures var u := Symboled(s, lens, site, i);
            Sane(u) && Ready(Settle(u)) && Run(s, CodeBits(lens, i) + rest) == Run(Settle(u), rest)
  {
    hide Run, AtCode, CodeBits, Shortest, Longest, ValueOf, Settle, Sane, Ready, Usable, Step, Lengths;
    AtCodeFacts(s, lens, alphaSize, site, false, i);
    var p, zn := CodeBits(lens, i), s.core.zn;
    var v := ValueOf(p[..zn]);
    FirstBits(s, p, zn, rest);
    CodeStep(s, lens, alphaSize, site, false, i, v);
    if zn < lens[i] {
      MoreRun(Longer(s, p, site), lens, alphaSize, site, i, rest);
    } else {
      assert p[zn..] + rest == rest;
    }
  }

  // ---- bits that begin with no code ----

  /** No code yet: the value so far is among those of codes that are longer. */
  ghost predicate Searching(s: Saved, lens: seq<int>, alphaSize: nat, site: nat, p: seq<bool>) {
    && AtCode(s, lens, alphaSize, site, true) && Shortest(lens) < s.core.zn <= LONGEST + 1 && s.core.zn <= |p| + 1
    && s.core.zvec == ValueOf(p[..s.core.zn - 1])
    && LimitAt(lens, s.core.zn - 1) < s.core.zvec && First(lens, s.core.zn - 1) <= s.core.zvec
  }

  /** Where the machine is when no symbol has been found. */
  ghost predicate Nowhere(s: Saved, t: Saved, site: nat) {
    ((t.core.at.Mtf? && t.core.at.site == site) || t.core.at == BadData) && t.out == s.out && t.list == s.list
      && t.core.nblock == s.core.nblock
  }

  /** What the loop does with bits that begin with no code. */
  lemma CheckNone(c: Core, site: nat, lens: seq<int>, alphaSize: nat, p: seq<bool>)
    requires c.gSel < |c.rows| && RowFor(c.rows[c.gSel], lens) && Usable(lens, alphaSize)
             && forall i :: !StartsWith(lens, p, i)
    requires Shortest(lens) <= c.zn <= LONGEST + 1 && c.zn <= |p| && c.zvec == ValueOf(p[..c.zn])
             && First(lens, c.zn) <= c.zvec
    ensures CheckCode(c, site) == if c.zn > LONGEST then Bad(c) else c.(zn := c.zn + 1, at := Mtf(site, true))
    ensures c.zn <= LONGEST ==> LimitAt(lens, c.zn) < c.zvec
  {
    UsableLengths(lens, alphaSize);
    hide StartsWith, Shortest, Longest, ValueOf, First, KraftSum, LimitAt, BaseAt, SymbolAt, Usable;
    if c.zn <= LONGEST && c.zvec <= LimitAt(lens, c.zn) {
      var i := StopsAt(lens, p, c.zn);
      assert false;
    }
  }

  lemma NoneStep(s: Saved, lens: seq<int>, alphaSize: nat, site: nat, more: bool, p: seq<bool>, v: nat)
    returns (t: Saved)
    requires AtCode(s, lens, alphaSize, site, more) && forall i :: !StartsWith(lens, p, i)
    requires Shortest(lens) <= s.core.zn <= LONGEST + 1 && s.core.zn <= |p|
    requires (if more then s.core.zvec * 2 + v else v) == ValueOf(p[..s.core.zn])
             && First(lens, s.core.zn) <= ValueOf(p[..s.core.zn])
    ensures Sane(s) && t == Step(s, v) && Ready(t) && t.out == s.out && t.list == s.list
            && t.core.nblock == s.core.nblock
    ensures s.core.zn > LONGEST ==> t.core.at == BadData
    ensures s.core.zn <= LONGEST ==> t == Longer(s, p, site) && LimitAt(lens, s.core.zn) < t.core.zvec
  {
    hide Run, RowFor, Usable, Shortest, Longest, ValueOf, CheckCode, Settle, SaneCore, StepCore, LimitAt, First,
      StartsWith;
    AfterCore(s, v);
    StepSane(s, v);
    var zn := s.core.zn;
    var c := s.core.(zvec := ValueOf(p[..zn]));
    CheckNone(c, site, lens, alphaSize, p);
    StepIs(s, v, site, c, lens);
    if zn <= LONGEST {
      t := Longer(s, p, site);
      SettleMtf(t);
    } else {
      t := With(s, Bad(c));
      SettleBad(t);
    }
  }

  lemma LongerSearches(s: Saved, lens: seq<int>, alphaSize: nat, site: nat, more: bool, p: seq<bool>)
    requires AtCode(s, lens, alphaSize, site, more) && Shortest(lens) <= s.core.zn <= LONGEST && s.core.zn <= |p|
    requires Ready(Longer(s, p, site)) && LimitAt(lens, s.core.zn) < ValueOf(p[..s.core.zn])
             && First(lens, s.core.zn) <= ValueOf(p[..s.core.zn])
    ensures Searching(Longer(s, p, site), lens, alphaSize, site, p)
  {
    hide Ready, RowFor, Usable, Shortest, ValueOf, LimitAt, First;
  }

  lemma SettleBad(s: Saved)
    requires Sane(s) && s.core.at == BadData
    ensures Settle(s) == s
  {
    hide SaneCore;
  }

  lemma {:induction false} NoneMore(s: Saved, lens: seq<int>, alphaSize: nat, site: nat, p: seq<bool>)
    requires Searching(s, lens, alphaSize, site, p) && forall i :: !StartsWith(lens, p, i)
    ensures Ready(s) && Nowhere(s, Run(s, p[s.core.zn - 1..]).0, site)
    decreases LONGEST + 1 - s.core.zn
  {
    hide Run, AtCode, Shortest, Longest, ValueOf, Settle, Sane, Ready, Usable, Step, Lengths, First, LimitAt,
      StartsWith;
    SearchingFacts(s, lens, alphaSize, site, p);
    var zn := s.core.zn;
    if zn > |p| {
      NoBits(s, p[zn - 1..]);
    } else {
      var v: nat := if p[zn - 1] then 1 else 0;
      assert p[zn - 1..] == [p[zn - 1]] + p[zn..];
      CodeBit(s, p[zn - 1], p[zn..], site);
      ValueGrows(p, zn - 1);
      SearchLonger(lens, alphaSize, p, zn - 1);
      var t := NoneStep(s, lens, alphaSize, site, true, p, v);
      if zn > LONGEST {
        Stopped(t, p[zn..]);
      } else {
        LongerSearches(s, lens, alphaSize, site, true, p);
        NoneMore(t, lens, alphaSize, site, p);
      }
    }
  }

  lemma SearchLonger(lens: seq<int>, alphaSize: nat, p: seq<bool>, zn: nat)
    requires Usable(lens, alphaSize) && Shortest(lens) <= zn < |p| && zn <= LONGEST
    requires LimitAt(lens, zn) < ValueOf(p[..zn]) && First(lens, zn) <= ValueOf(p[..zn])
    ensures First(lens, zn + 1) <= ValueOf(p[..zn + 1])
  {
    UsableLengths(lens, alphaSize);
    hide First, LimitAt, ValueOf, Usable, Shortest, Longest;
    GoesOn(lens, p, zn);
  }

  lemma SearchingFacts(s: Saved, lens: seq<int>, alphaSize: nat, site: nat, p: seq<bool>)
    requires Searching(s, lens, alphaSize, site, p)
    ensures Ready(s) && Usable(lens, alphaSize) && AtCode(s, lens, alphaSize, site, true)
            && s.core.at == Mtf(site, true)
    ensures 1 <= Shortest(lens) < s.core.zn <= LONGEST + 1 && s.core.zn <= |p| + 1
            && s.core.zvec == ValueOf(p[..s.core.zn - 1])
    ensures LimitAt(lens, s.core.zn - 1) < s.core.zvec && First(lens, s.core.zn - 1) <= s.core.zvec
  {
    UsableLengths(lens, alphaSize);
    hide RowFor, Ready, Longest, First, LimitAt, ValueOf;
  }

  lemma NoBits(s: Saved, rest: seq<bool>)
    requires Ready(s) && s.core.at.Mtf? && s.core.at.more && rest == []
    ensures Run(s, rest) == (s, rest)
  {
    hide Sane;
  }

  /** Bits that do not begin with a code lead to no symbol: the machine waits for more, or refuses them. */
  lemma NoneRun(s: Saved, lens: seq<int>, alphaSize: nat, site: nat, p: seq<bool>)
    requires AtCode(s, lens, alphaSize, site, false) && s.core.zn == Shortest(lens)
             && forall i :: !StartsWith(lens, p, i)
    ensures Ready(s) && Nowhere(s, Run(s, p).0, site)
  {
    hide Run, AtCode, Shortest, Longest, ValueOf, Settle, Sane, Ready, Usable, Step, Lengths, First, LimitAt,
      StartsWith;
    NoneFacts(s, lens, alphaSize, site);
    var zn := s.core.zn;
    if zn > |p| {
      FewBits(s, p);
    } else {
      var v := ValueOf(p[..zn]);
      FirstBits(s, p, zn, []);
      assert p + [] == p && p[zn..] + [] == p[zn..];
      var t := NoneStep(s, lens, alphaSize, site, false, p, v);
      LongerSearches(s, lens, alphaSize, site, false, p);
      NoneMore(t, lens, alphaSize, site, p);
    }
  }

  lemma NoneFacts(s: Saved, lens: seq<int>, alphaSize: nat, site: nat)
    requires AtCode(s, lens, alphaSize, site, false) && s.core.zn == Shortest(lens)
    ensures Ready(s) && s.core.at == Mtf(site, false) && 1 <= Shortest(lens) <= LONGEST
            && First(lens, Shortest(lens)) == 0
  {
    UsableLengths(lens, alphaSize);
    FirstZero(lens, Shortest(lens), Longest(lens), Shortest(lens));
    hide RowFor, Ready, Longest, First;
  }

  lemma FewBits(s: Saved, p: seq<bool>)
    requires Ready(s) && s.core.at.Mtf? && Want(s.core) > |p|
    ensures Run(s, p) == (s, p)
  {
    hide Sane;
  }
}
