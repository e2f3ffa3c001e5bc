/** What the decompressor does between bits that does need its tables and lists. */
module DecompressSteps {
  import opened Bits
  import opened Sequences
  import opened Radix
  import opened BwtTheory
  import opened HuffmanForest
  import opened HuffmanCodes
  import opened MtfEncode
  import opened BlockFormat
  import opened DecompressMachine
  import MTF = MoveToFront

  // ---- tables ----

  /** The bytes in use below n, in order. */
  ghost function Listed(used: seq<bool>, n: nat): (l: seq<Byte>)
    requires n <= |used| <= 256
    ensures |l| == UsedBelow(used, n)
  {
    if n == 0 then [] else Listed(used, n - 1) + (if used[n - 1] then [n - 1] else [])
  }

  /** makeMaps_d: the part of the map that no byte has a place in keeps what it held. */
  ghost function NewMaps(was: seq<Byte>, used: seq<bool>): (m: seq<Byte>)
    requires |was| == |used| == 256
    ensures |m| == 256
  {
    Listed(used, 256) + was[UsedBelow(used, 256)..]
  }

  /** The list of tables and the selectors so far, from their positions. */
  ghost function UndoSel(n: nat, mtf: seq<nat>): (r: (seq<Byte>, seq<Byte>))
    requires 0 < n <= 256 && forall k :: 0 <= k < |mtf| ==> mtf[k] < n
    ensures |r.0| == n && |r.1| == |mtf| && (forall k :: 0 <= k < n ==> r.0[k] < n)
            && (forall k :: 0 <= k < |r.1| ==> r.1[k] < n)
  {
    if mtf == [] then (MTF.Identity(n), [])
    else
      var (list, sels) := UndoSel(n, mtf[..|mtf| - 1]);
      var v := mtf[|mtf| - 1];
      (MTF.Front(list, v), sels + [list[v]])
  }

  /** BZ2_hbCreateDecodeTables, over what the table held. */
  ghost function NewRow(was: Decoding, lens: seq<int>): (d: Decoding)
    requires Row(was) && 0 < |lens| <= MAX_ALPHA
    ensures |d.limit| == |d.base| == |d.perm| == MAX_ALPHA
  {
    Decoding(Shortest(lens),
      seq(MAX_ALPHA, l requires 0 <= l < MAX_ALPHA => if l < MAX_CODE_LEN then LimitAt(lens, l) else was.limit[l]),
      seq(MAX_ALPHA, l requires 0 <= l < MAX_ALPHA => if l < MAX_CODE_LEN then BaseAt(lens, l) else was.base[l]),
      seq(MAX_ALPHA, k requires 0 <= k < MAX_ALPHA => if k < |lens| then SymbolAt(lens, k) as int else was.perm[k]))
  }

  lemma NewRowIs(was: Decoding, lens: seq<int>, n: nat)
    requires Row(was) && FullRow(lens, n) && 0 < n <= MAX_ALPHA
    ensures Row(NewRow(was, lens)) && NewRow(was, lens).minLen >= 1
  {
    assert Shortest(lens) in lens;
  }

  /** The first t tables made anew. */
  ghost function NewRows(was: seq<Decoding>, lens: seq<seq<int>>, t: nat): (d: seq<Decoding>)
    requires t <= |lens| <= |was| && (forall g :: 0 <= g < |was| ==> Row(was[g]))
             && (forall g :: 0 <= g < |lens| ==> 0 < |lens[g]| <= MAX_ALPHA)
    ensures |d| == |was| && (forall g :: t <= g < |was| ==> d[g] == was[g])
            && (forall g :: 0 <= g < t ==> d[g] == NewRow(was[g], lens[g]))
  {
    if t == 0 then was else NewRows(was, lens, t - 1)[t - 1 := NewRow(was[t - 1], lens[t - 1])]
  }

  ghost predicate Sane(s: Saved) {
    && SaneCore(s.core) && |s.list| == 256 && |s.maps| == 256
    && (s.core.at.Mtf? || s.core.at.Decoded? ==> |s.out| == s.core.nblock)
  }

  lemma NewRowsSane(was: seq<Decoding>, lens: seq<seq<int>>, n: nat)
    requires |lens| <= |was| == 6 && (forall g :: 0 <= g < |was| ==> Row(was[g])) && 0 < n <= MAX_ALPHA
    requires forall g :: 0 <= g < |lens| ==> FullRow(lens[g], n)
    ensures forall g :: 0 <= g < |lens| ==> 0 < |lens[g]| <= MAX_ALPHA
    ensures forall g :: 0 <= g < 6 ==> Row(NewRows(was, lens, |lens|)[g])
    ensures forall g :: 0 <= g < |lens| ==> NewRows(was, lens, |lens|)[g].minLen >= 1
  {
    hide Row, NewRow;
    assert forall g :: 0 <= g < |lens| ==> 0 < |lens[g]| <= MAX_ALPHA;
    hide FullRow;
    forall g | 0 <= g < |lens| ensures Row(was[g]) && Row(NewRow(was[g], lens[g]))
      && NewRow(was[g], lens[g]).minLen >= 1 {
      NewRowIs(was[g], lens[g], n);
    }
  }

  // ---- symbols ----

  ghost predicate Going(s: Saved) {
    Sane(s) && s.core.at.Decoded?
  }

  ghost function BadS(s: Saved): Saved { With(s, Bad(s.core)) }

  lemma NeedFits(c: Core)
    requires Always(c) && Reading(c)
    ensures 0 <= c.groupNo + 1 && c.nSelectors == |c.selector| && c.gSel < |c.rows|
    ensures forall g :: 0 <= g < |c.selector| ==> c.selector[g] < |c.rows|
    ensures forall g :: 0 <= g < |c.rows| ==> c.rows[g].minLen >= 0
  {
  }

  ghost function NeedS(s: Saved, site: nat): Saved
    requires Always(s.core) && Reading(s.core)
  {
    NeedFits(s.core);
    With(s, NeedSymbol(s.core, site))
  }

  lemma RunPositive(N: nat, sym: int)
    requires 0 <= sym <= 1
    ensures (sym + 1) * N >= 0
  {
  }

  /** The core with one more run symbol counted in. */
  ghost function RunMore(c: Core, sym: int): Core
    requires 0 <= sym <= 1
  {
    RunPositive(c.N, sym);
    c.(es := c.es + (sym + 1) * c.N, N := c.N * 2)
  }

  lemma RunMoreReads(c: Core, sym: int)
    requires Always(c) && Reading(c) && 0 <= sym <= 1
    ensures Always(RunMore(c, sym)) && Reading(RunMore(c, sym)) && RunMore(c, sym).nblock == c.nblock
  {
    RunPositive(c.N, sym);
    hide Row;
  }

  /** RUNA or RUNB. */
  ghost function InRun(s: Saved, sym: int): Saved
    requires Always(s.core) && Reading(s.core) && 0 <= sym <= 1
  {
    if s.core.N >= MTF.RUN_LIMIT then BadS(s)
    else
      RunMoreReads(s.core, sym);
      NeedS(With(s, RunMore(s.core, sym)), 1)
  }

  /** The run that has ended is put out. */
  ghost function EndRun(s: Saved): Saved
    requires |s.list| == |s.maps| == 256 && s.core.es >= -1
  {
    var n := s.core.es + 1;
    if s.core.nblock + n > 100000 * s.core.blockSize100k then BadS(s)
    else s.(out := s.out + Rep(s.maps[s.list[0]], n), core := s.core.(es := 0, nblock := s.core.nblock + n))
  }

  /** Any other symbol: one byte, and its place moves to the front. */
  ghost function OneByte(s: Saved, sym: int): Saved
    requires Always(s.core) && Reading(s.core) && |s.list| == |s.maps| == 256 && 1 < sym < MAX_ALPHA
  {
    if s.core.nblock >= 100000 * s.core.blockSize100k || sym > 256 then BadS(s)
    else NeedS(s.(out := s.out + [s.maps[s.list[sym - 1]]], list := MTF.Front(s.list, sym - 1),
                  core := s.core.(nblock := s.core.nblock + 1)), 2)
  }

  /** The end of the block: the column is complete. */
  ghost function EndBlock(s: Saved): Saved {
    if s.core.origPtr >= s.core.nblock then BadS(s) else With(s, s.core.(at := Output))
  }

  ghost function Main(s: Saved, sym: int): Saved
    requires Always(s.core) && Reading(s.core) && |s.list| == |s.maps| == 256 && 0 <= sym < MAX_ALPHA
  {
    if sym == s.core.nInUse + 1 then EndBlock(s)
    else if sym <= 1 then InRun(With(s, s.core.(es := -1, N := 1)), sym)
    else OneByte(s, sym)
  }

  ghost function OnSymbol(s: Saved, site: nat, sym: int): Saved
    requires Always(s.core) && Reading(s.core) && |s.list| == |s.maps| == 256 && 0 <= sym < MAX_ALPHA
  {
    if site != 1 then Main(s, sym)
    else if sym <= 1 then InRun(s, sym)
    else
      var e := EndRun(s);
      if e.core.at.BadData? then e else Main(e, sym)
  }

  /** The work that needs no more bits. */
  ghost function Settle(s: Saved): Saved
    requires Sane(s)
  {
    var c := s.core;
    match c.at
    case Allocate => With(s, c.(at := BlkHdr(1)))
    case MakeMaps =>
      var n := UsedBelow(c.inUse, 256);
      s.(maps := NewMaps(s.maps, c.inUse), core := c.(nInUse := n, at := if n == 0 then BadData else Selector1))
    case UndoSelectors => With(s, c.(selector := UndoSel(c.nGroups, c.selectorMtf).1, lens := [], at := Coding1))
    case MakeTables =>
      NewRowsSane(c.rows, c.lens, c.nInUse + 2);
      NeedS(s.(list := MTF.Identity(256), out := [],
        core := c.(rows := NewRows(c.rows, c.lens, |c.lens|), groupNo := -1, groupPos := 0, gSel := 0, es := 0, N := 1,
                   nblock := 0)), 0)
    case Decoded(site, sym) => OnSymbol(s, site, sym)
    case _ => s
  }

  ghost function Step(s: Saved, v: nat): Saved
    requires Sane(s)
  {
    StepCoreSane(s.core, v);
    AfterCore(s, v);
    Settle(With(s, StepCore(s.core, v)))
  }

  /** Symbols leave the bytes put out alone until they are decoded. */
  lemma AfterCore(s: Saved, v: nat)
    requires Sane(s)
    ensures SaneCore(StepCore(s.core, v)) && Sane(With(s, StepCore(s.core, v)))
  {
    StepCoreSane(s.core, v);
    hide SaneCore;
    LabelsCome(s.core, v);
  }

  predicate Early(l: Label) { !l.Mtf? && !l.Decoded? }

  lemma LabelsCome(c: Core, v: nat)
    requires SaneCore(c)
    ensures Early(c.at) ==> Early(StepCore(c, v).at)
    ensures c.at.Mtf? || c.at.Decoded? ==> StepCore(c, v).nblock == c.nblock
  {
    hide Row, Always, StepHeader, StepMapping, StepSelectors, StepCoding;
    match c.at
    case Mapping1 => MappingLabels(c, v);
    case Mapping2 => MappingLabels(c, v);
    case Selector1 => SelectorLabels(c, v);
    case Selector2 => SelectorLabels(c, v);
    case Selector3 => SelectorLabels(c, v);
    case Coding1 => CodingLabels(c, v);
    case Coding2 => CodingLabels(c, v);
    case Coding3 => CodingLabels(c, v);
    case Mtf(_, _) => MtfKeeps(c, v);
    case _ => HeaderLabels(c, v);
  }

  lemma MtfKeeps(c: Core, v: nat)
    requires SaneCore(c) && c.at.Mtf?
    ensures StepCore(c, v).nblock == c.nblock
  {
  }

  lemma HeaderLabels(c: Core, v: nat)
    ensures Early(c.at) ==> Early(StepHeader(c, v).at)
    ensures c.at.Decoded? ==> StepHeader(c, v) == c
  {
  }

  lemma SelectorLabels(c: Core, v: nat)
    ensures Early(c.at) ==> Early(StepSelectors(c, v).at)
  {
  }

  lemma CodingLabels(c: Core, v: nat)
    ensures Early(c.at) ==> Early(StepCoding(c, v).at)
  {
  }

  lemma MappingLabels(c: Core, v: nat)
    requires SaneCore(c) && (c.at.Mapping1? || c.at.Mapping2?)
    ensures Early(StepMapping(c, v).at)
  {
    hide Row;
    match c.at
    case Mapping1 =>
      var c' := c.(inUse16 := c.inUse16 + [v == 1]);
      if |c'.inUse16| == 16 { SeekLabels(c'.(inUse := NoneUsed()), 0); }
    case Mapping2 =>
      var c' := if v == 1 then c.(inUse := c.inUse[c.i * 16 + c.j := true]) else c;
      if c.j + 1 >= 16 { SeekLabels(c', c.i + 1); }
  }

  lemma {:induction false} SeekLabels(c: Core, i: nat)
    requires |c.inUse16| == 16 && i <= 16
    ensures SeekRow(c, i).at == MakeMaps || SeekRow(c, i).at == Mapping2
    decreases 16 - i
  {
    if i < 16 && !c.inUse16[i] { SeekLabels(c, i + 1); }
  }

  // ---- the state stays in order ----

  lemma NeedSane(s: Saved, site: nat)
    requires Always(s.core) && Reading(s.core) && |s.list| == |s.maps| == 256 && |s.out| == s.core.nblock && site < 3
    ensures Sane(NeedS(s, site))
  {
    NeedFits(s.core);
  }

  lemma InRunSane(s: Saved, sym: int)
    requires Always(s.core) && Reading(s.core) && |s.list| == |s.maps| == 256 && |s.out| == s.core.nblock
             && 0 <= sym <= 1
    ensures Sane(InRun(s, sym))
  {
    hide Row, NeedSymbol, RunMore;
    RunMoreReads(s.core, sym);
    if s.core.N < MTF.RUN_LIMIT {
      NeedSane(With(s, RunMore(s.core, sym)), 1);
    }
  }

  lemma MainSane(s: Saved, sym: int)
    requires Always(s.core) && Reading(s.core) && |s.list| == |s.maps| == 256 && |s.out| == s.core.nblock
             && 0 <= sym < MAX_ALPHA
    ensures Sane(Main(s, sym))
  {
    hide Row;
    if sym == s.core.nInUse + 1 {
    } else if sym <= 1 {
      InRunSane(With(s, s.core.(es := -1, N := 1)), sym);
    } else if s.core.nblock < 100000 * s.core.blockSize100k && sym <= 256 {
      NeedSane(s.(out := s.out + [s.maps[s.list[sym - 1]]], list := MTF.Front(s.list, sym - 1),
                  core := s.core.(nblock := s.core.nblock + 1)), 2);
    }
  }

  lemma SymbolSane(s: Saved, site: nat, sym: int)
    requires Always(s.core) && Reading(s.core) && |s.list| == |s.maps| == 256 && |s.out| == s.core.nblock
             && 0 <= sym < MAX_ALPHA
    ensures Sane(OnSymbol(s, site, sym))
  {
    hide Row, Main, InRun, MTF.Front;
    if site != 1 {
      MainSane(s, sym);
    } else if sym <= 1 {
      InRunSane(s, sym);
    } else {
      var e := EndRun(s);
      if !e.core.at.BadData? { MainSane(e, sym); }
    }
  }

  lemma TablesSane(s: Saved)
    requires Sane(s) && s.core.at.MakeTables?
    ensures Sane(Settle(s))
  {
    hide Row, NewRow, NewRows;
    var c := s.core;
    NewRowsSane(c.rows, c.lens, c.nInUse + 2);
    var rows := NewRows(c.rows, c.lens, |c.lens|);
    NeedSane(s.(list := MTF.Identity(256), out := [],
      core := c.(rows := rows, groupNo := -1, groupPos := 0, gSel := 0, es := 0, N := 1, nblock := 0)), 0);
  }

  lemma OthersSane(s: Saved)
    requires Sane(s) && !s.core.at.Decoded? && !s.core.at.MakeTables?
    ensures Sane(Settle(s)) && Asks(Settle(s).core)
  {
    hide Row, NewMaps;
  }

  lemma SettleSane(s: Saved)
    requires Sane(s)
    ensures Sane(Settle(s)) && Asks(Settle(s).core)
  {
    match s.core.at
    case Decoded(site, sym) =>
      SymbolSane(s, site, sym);
      SymbolLabels(s, site, sym);
    case MakeTables =>
      TablesSane(s);
      TablesLabel(s);
    case _ => OthersSane(s);
  }

  lemma TablesLabel(s: Saved)
    requires Sane(s) && s.core.at.MakeTables?
    ensures Asks(Settle(s).core)
  {
    hide Row, NewRow, NewRows;
  }

  /** A label that asks for bits, or is final. */
  predicate Asks(c: Core) {
    Terminal(c.at) || !(c.at.Allocate? || c.at.MakeMaps? || c.at.UndoSelectors? || c.at.MakeTables? || c.at.Decoded?)
  }

  lemma SymbolLabels(s: Saved, site: nat, sym: int)
    requires Always(s.core) && Reading(s.core) && |s.list| == |s.maps| == 256 && 0 <= sym < MAX_ALPHA
    ensures Asks(OnSymbol(s, site, sym).core)
  {
    hide Row, MTF.Front;
  }

  lemma AsksSome(c: Core)
    requires SaneCore(c) && Asks(c) && !Terminal(c.at)
    ensures 1 <= Want(c) <= 24
  {
    hide Row;
  }

  lemma StepSane(s: Saved, v: nat)
    requires Sane(s)
    ensures Sane(Step(s, v)) && Asks(Step(s, v).core)
  {
    AfterCore(s, v);
    hide Sane, Settle, StepCore, SaneCore;
    SettleSane(With(s, StepCore(s.core, v)));
  }
}
