/** The decompressor on the bits the compressor writes: from the code lengths to the end of the block. */
module DecompressData {
  import opened Bits
  import opened Sequences
  import opened BitStream
  import opened HuffmanForest
  import opened HuffmanCodes
  import opened Radix
  import opened BwtTheory
  import opened MtfEncode
  import opened BlockFormat
  import opened BlockParts
  import opened DecompressMachine
  import opened DecompressSteps
  import opened DecompressRun
  import opened DecompressHeader
  import opened DecompressTables
  import opened DecompressSymbols
  import MTF = MoveToFront
  import MtfDecode

  // ---- where the symbols are read from ----

  /** The tables, selectors and alphabet of the body, in the state. */
  ghost predicate Tabled(c: Core, d: Body) {
    && BlockFormat.WellFormed(d) && |c.rows| == 6 && c.nInUse == InUse(d.used) && c.nGroups == d.nGroups
    && c.selector == d.selectors && c.nSelectors == |d.selectors|
    && (forall g :: 0 <= g < d.nGroups ==> RowFor(c.rows[g], d.lens[g]))
  }

  /** Symbol k comes next; its group may not have been begun. */
  ghost predicate Placed(c: Core, d: Body, k: nat) {
    && c.groupPos == (if k % GROUP == 0 then 0 else GROUP - k % GROUP)
    && c.groupNo == (if k % GROUP == 0 then k / GROUP - 1 else k / GROUP)
    && (k % GROUP != 0 ==> k / GROUP < |d.selectors| && c.gSel == d.selectors[k / GROUP])
  }

  lemma GroupSelector(d: Body, k: nat)
    requires BlockFormat.WellFormed(d) && k < |d.syms|
    ensures k / GROUP < |d.selectors| && d.selectors[k / GROUP] < d.nGroups <= 6 && |d.lens| == d.nGroups
  {
    GroupInRange(|d.syms|, k);
  }

  /** The state at the code of symbol k. */
  ghost predicate AtSymbol(s: Saved, d: Body, k: nat, site: nat) {
    && Tabled(s.core, d) && k < |d.syms| && k / GROUP < |d.selectors| && d.selectors[k / GROUP] < d.nGroups <= |d.lens|
    && AtCode(s, d.lens[d.selectors[k / GROUP]], InUse(d.used) + 2, site, false)
    && s.core.zn == s.core.rows[s.core.gSel].minLen && s.core.gSel == d.selectors[k / GROUP] && Placed(s.core, d, k + 1)
  }

  lemma NextPlace(c: Core, d: Body, k: nat)
    requires c.groupPos == GROUP - 1 - k % GROUP && c.groupNo == k / GROUP && k / GROUP < |d.selectors|
             && c.gSel == d.selectors[k / GROUP]
    ensures Placed(c, d, k + 1)
  {
    if k % GROUP == GROUP - 1 {
      assert (k + 1) % GROUP == 0 && (k + 1) / GROUP == k / GROUP + 1;
    } else {
      assert (k + 1) % GROUP == k % GROUP + 1 && (k + 1) / GROUP == k / GROUP;
    }
  }

  /** The core that asks for symbol k. */
  ghost function Asking(c: Core, d: Body, k: nat, site: nat): Core
    requires Tabled(c, d) && k < |d.syms|
  {
    GroupSelector(d, k);
    assert RowFor(c.rows[d.selectors[k / GROUP]], d.lens[d.selectors[k / GROUP]]);
    c.(groupNo := k / GROUP, groupPos := GROUP - 1 - k % GROUP, gSel := d.selectors[k / GROUP],
       zn := c.rows[d.selectors[k / GROUP]].minLen, at := Mtf(site, false))
  }

  lemma PlaceCounts(c: Core, d: Body, k: nat)
    requires Placed(c, d, k)
    ensures k % GROUP == 0 ==> c.groupPos == 0 && c.groupNo + 1 == k / GROUP && GROUP - 1 == GROUP - 1 - k % GROUP
    ensures k % GROUP != 0 ==> c.groupPos > 0 && c.groupPos - 1 == GROUP - 1 - k % GROUP && c.groupNo == k / GROUP
    ensures k % GROUP != 0 ==> k / GROUP < |d.selectors| && c.gSel == d.selectors[k / GROUP]
    ensures 0 <= GROUP - 1 - k % GROUP
  {
  }

  lemma NeedIs(s: Saved, d: Body, k: nat, site: nat)
    requires Always(s.core) && Reading(s.core) && Tabled(s.core, d) && Placed(s.core, d, k) && k < |d.syms|
    ensures NeedS(s, site) == With(s, Asking(s.core, d, k, site))
  {
    hide Placed;
    PlaceCounts(s.core, d, k);
    GroupSelector(d, k);
    NeedFits(s.core);
    hide BlockFormat.WellFormed, RowFor, Row, Always, Reading;
  }

  lemma AskingIs(s: Saved, d: Body, k: nat, site: nat)
    requires Always(s.core) && Tabled(s.core, d) && k < |d.syms|
    requires var t := With(s, Asking(s.core, d, k, site)); Ready(t)
    ensures AtSymbol(With(s, Asking(s.core, d, k, site)), d, k, site)
  {
    GroupSelector(d, k);
    NextPlace(Asking(s.core, d, k, site), d, k);
    var g := d.selectors[k / GROUP];
    assert Usable(d.lens[g], InUse(d.used) + 2);
    hide BlockFormat.WellFormed, RowFor, Row, Usable, Ready;
  }

  // ---- what the symbols so far mean ----

  /** The list, the bytes put out and the run being read are what the first k symbols mean. */
  ghost predicate Tracking(s: Saved, d: Body, k: nat, site: nat) {
    && |d.used| == 256 && MtfDecode.WellFormed(InUse(d.used), d.syms) && k < |d.syms| && |s.list| == |s.maps| == 256
    && var u := MtfDecode.After(InUse(d.used), d.syms, k);
       && s.list[..InUse(d.used)] == u.list && s.out == MtfDecode.Bytes(s.maps, u.out) && s.core.nblock == |u.out|
       && (if site == 1 then s.core.es + 1 == u.run && s.core.N == u.weight else u.run == 0 && u.weight == 1)
  }

  /** What makes the decoder accept a block: no place value too big, and room for its bytes. */
  ghost predicate Acceptable(d: Body, room: nat) {
    && |d.used| == 256 && MtfDecode.WellFormed(InUse(d.used), d.syms)
    && (forall k: nat :: !MtfDecode.Heavy(InUse(d.used), d.syms, k))
       && |MtfDecode.Meaning(InUse(d.used), d.syms)| <= room
  }

  /** Symbol k can be dealt with: its place value is not too big, and its bytes have room. */
  ghost predicate Fits(d: Body, k: nat, room: nat) {
    && |d.used| == 256 && MtfDecode.WellFormed(InUse(d.used), d.syms) && k < |d.syms|
       && !MtfDecode.Heavy(InUse(d.used), d.syms, k)
    && (d.syms[k] > MTF.RUNB ==>
          MtfDecode.Length(MtfDecode.After(InUse(d.used), d.syms, k)) + (if k + 1 < |d.syms| then 1 else 0) <= room)
  }

  /** All symbols fit exactly when the block is acceptable. */
  lemma AllFit(d: Body, room: nat)
    requires |d.used| == 256 && MtfDecode.WellFormed(InUse(d.used), d.syms)
    ensures Acceptable(d, room) <==> forall k: nat :: k < |d.syms| ==> Fits(d, k, room)
  {
    hide InUse, MtfDecode.After, MTF.UndoFrom;
    if Acceptable(d, room) {
      forall k: nat | k < |d.syms| ensures Fits(d, k, room) { FlushRoom(d, k, room); }
    }
    if forall k: nat :: k < |d.syms| ==> Fits(d, k, room) {
      MtfDecode.SymRange0(InUse(d.used), d.syms);
      assert Fits(d, |d.syms| - 1, room);
      forall k: nat ensures !MtfDecode.Heavy(InUse(d.used), d.syms, k) { assert k < |d.syms| ==> Fits(d, k, room); }
    }
  }

  lemma RunTracks(s: Saved, d: Body, k: nat, site: nat, room: nat)
    requires Tracking(s, d, k, site) && Fits(d, k, room) && d.syms[k] <= MTF.RUNB && 0 <= d.syms[k]
    ensures k + 1 < |d.syms|
    ensures var c := if site == 1 then s.core else s.core.(es := -1, N := 1);
            c.N < MTF.RUN_LIMIT && Tracking(With(s, c.(es := c.es + (d.syms[k] + 1) * c.N, N := c.N * 2)), d, k + 1, 1)
  {
    hide InUse, MtfDecode.After, MTF.UndoFrom;
    var n := InUse(d.used);
    MtfDecode.SymRange0(n, d.syms);
    MtfDecode.SymRange(n, d.syms, k);
    var u := MtfDecode.After(n, d.syms, k);
    MtfDecode.RunStep(n, d.syms, k, u.run - 1, u.weight);
  }

  lemma FlushRoom(d: Body, k: nat, room: nat)
    requires Acceptable(d, room) && k < |d.syms|
    ensures MtfDecode.Length(MtfDecode.After(InUse(d.used), d.syms, k)) <= room
    ensures k + 1 < |d.syms| && d.syms[k] > MTF.RUNB ==>
              MtfDecode.Length(MtfDecode.After(InUse(d.used), d.syms, k)) + 1 <= room
  {
    hide InUse, MtfDecode.After, MTF.UndoFrom, MtfDecode.Length, MtfDecode.WellFormed, MtfDecode.Meaning;
    var n := InUse(d.used);
    MtfDecode.MeaningLength(n, d.syms, k);
    if k + 1 < |d.syms| && d.syms[k] > MTF.RUNB {
      MtfDecode.SymLengthFact(n, d.syms, k);
      MtfDecode.MeaningLength(n, d.syms, k + 1);
    }
  }

  /** The run that has been read, put out. */
  lemma RunFlushed(s: Saved, d: Body, k: nat, room: nat)
    requires Tracking(s, d, k, 1) && Fits(d, k, room) && d.syms[k] > MTF.RUNB && room == 100000 * s.core.blockSize100k
             && s.core.es >= -1
    ensures var u := MtfDecode.After(InUse(d.used), d.syms, k);
            EndRun(s) == s.(out := MtfDecode.Bytes(s.maps, MTF.Flush(u).out),
                            core := s.core.(es := 0, nblock := |MTF.Flush(u).out|))
  {
    hide InUse, MtfDecode.After, MTF.UndoFrom;
    MtfDecode.SymRange0(InUse(d.used), d.syms);
    var u := MtfDecode.After(InUse(d.used), d.syms, k);
    MtfDecode.BytesRep(s.maps, u.out, s.list[0], u.run);
    assert s.list[0] == u.list[0];
  }

  /** Between symbols with no run pending. */
  ghost predicate Flushed(s: Saved, d: Body, k: nat) {
    && |d.used| == 256 && MtfDecode.WellFormed(InUse(d.used), d.syms) && k < |d.syms| && |s.list| == |s.maps| == 256
    && var u := MTF.Flush(MtfDecode.After(InUse(d.used), d.syms, k));
       s.list[..InUse(d.used)] == u.list && s.out == MtfDecode.Bytes(s.maps, u.out) && s.core.nblock == |u.out|
  }

  lemma NoRunFlushed(s: Saved, d: Body, k: nat, site: nat)
    requires Tracking(s, d, k, site) && site != 1
    ensures Flushed(s, d, k)
  {
    hide InUse, MtfDecode.After;
    MtfDecode.SymRange0(InUse(d.used), d.syms);
    var u := MtfDecode.After(InUse(d.used), d.syms, k);
    assert u.out + Rep(u.list[0], 0) == u.out;
  }

  /** Any symbol that is no run and not the last. */
  lemma ByteTracks(s: Saved, d: Body, k: nat, room: nat)
    requires Flushed(s, d, k) && Fits(d, k, room) && d.syms[k] > MTF.RUNB && k + 1 < |d.syms|
    ensures s.core.nblock < room && d.syms[k] <= 256
    ensures var sym := d.syms[k];
            Tracking(s.(out := s.out + [s.maps[s.list[sym - 1]]], list := MTF.Front(s.list, sym - 1),
                        core := s.core.(nblock := s.core.nblock + 1)), d, k + 1, 2)
  {
    hide InUse, MtfDecode.After, MTF.UndoFrom;
    var n, sym := InUse(d.used), d.syms[k];
    MtfDecode.SymRange0(n, d.syms);
    MtfDecode.SymRange(n, d.syms, k);
    MtfDecode.AfterNext(n, d.syms, k);
    var u, w := MtfDecode.After(n, d.syms, k), MtfDecode.After(n, d.syms, k + 1);
    MtfDecode.FrontPrefix(s.list, n, sym - 1);
    assert w.out == MTF.Flush(u).out + [s.list[sym - 1]];
    assert MtfDecode.Bytes(s.maps, w.out) == MtfDecode.Bytes(s.maps, MTF.Flush(u).out)
           + [s.maps[s.list[sym - 1]] as int];
  }

  // ---- one symbol ----

  /** The block's header is as it was. */
  ghost predicate SameHead(c: Core, c': Core) {
    && c'.blockSize100k == c.blockSize100k && c'.currBlockNo == c.currBlockNo && c'.storedBlockCRC == c.storedBlockCRC
    && c'.storedCombinedCRC == c.storedCombinedCRC && c'.randomised == c.randomised && c'.origPtr == c.origPtr
  }

  /** Ready to deal with symbol k. */
  ghost predicate Dealing(s: Saved, d: Body, k: nat, site: nat) {
    && k < |d.syms| && s.core.at == Decoded(site, d.syms[k]) && Sane(s) && Tabled(s.core, d) && Placed(s.core, d, k + 1)
    && Tracking(s, d, k, site)
  }

  ghost predicate Kept(s: Saved, t: Saved) { t.maps == s.maps && SameHead(s.core, t.core) }

  lemma NextAsked(s: Saved, d: Body, k: nat, site: nat)
    requires Always(s.core) && Reading(s.core) && Tabled(s.core, d) && Placed(s.core, d, k) && k < |d.syms|
             && Tracking(s, d, k, site)
    requires Ready(NeedS(s, site))
    ensures AtSymbol(NeedS(s, site), d, k, site) && Tracking(NeedS(s, site), d, k, site) && Kept(s, NeedS(s, site))
  {
    hide Always, Reading, Tabled, Placed, Ready, AtSymbol, InUse, MtfDecode.WellFormed, MtfDecode.After,
      MtfDecode.Bytes, NeedS;
    NeedIs(s, d, k, site);
    AskingIs(s, d, k, site);
  }

  lemma DealRun(s: Saved, d: Body, k: nat, site: nat)
    requires Dealing(s, d, k, site) && Fits(d, k, 100000 * s.core.blockSize100k) && 0 <= d.syms[k] <= MTF.RUNB
    ensures k + 1 < |d.syms|
    ensures var t := Settle(s); AtSymbol(t, d, k + 1, 1) && Tracking(t, d, k + 1, 1) && Kept(s, t)
  {
    hide Always, Reading, NeedS, Tracking, Tabled, Placed, Sane, Fits, Dealing, Settle, AtSymbol;
    DealingFacts(s, d, k, site);
    var sym := d.syms[k];
    SettleSane(s);
    RunTracks(s, d, k, site, 100000 * s.core.blockSize100k);
    var c := if site == 1 then s.core else s.core.(es := -1, N := 1);
    RunPositive(c.N, sym);
    var v := With(s, c.(es := c.es + (sym + 1) * c.N, N := c.N * 2));
    SettleRun(s, site, sym, v);
    SamePlace(s.core, v.core, d, k + 1);
    NextAsked(v, d, k + 1, 1);
  }

  lemma DealingFacts(s: Saved, d: Body, k: nat, site: nat)
    requires Dealing(s, d, k, site)
    ensures k < |d.syms| && s.core.at == Decoded(site, d.syms[k]) && Sane(s) && Tabled(s.core, d)
            && Placed(s.core, d, k + 1)
    ensures Tracking(s, d, k, site)
  {
  }

  lemma SamePlace(c: Core, c': Core, d: Body, k: nat)
    requires Tabled(c, d) && Placed(c, d, k)
    requires c'.rows == c.rows && c'.nInUse == c.nInUse && c'.nGroups == c.nGroups && c'.selector == c.selector
             && c'.nSelectors == c.nSelectors
    requires c'.groupPos == c.groupPos && c'.groupNo == c.groupNo && c'.gSel == c.gSel
    ensures Tabled(c', d) && Placed(c', d, k)
  {
    hide BlockFormat.WellFormed, RowFor;
  }

  lemma SettleRun(s: Saved, site: nat, sym: int, v: Saved)
    requires Sane(s) && s.core.at == Decoded(site, sym) && 0 <= sym <= 1
    requires var c := if site == 1 then s.core else s.core.(es := -1, N := 1);
             c.N < MTF.RUN_LIMIT && v == With(s, c.(es := c.es + (sym + 1) * c.N, N := c.N * 2))
    ensures Always(v.core) && Reading(v.core) && Settle(s) == NeedS(v, 1)
  {
    hide Row, NeedSymbol;
    RunPositive((if site == 1 then s.core.N else 1), sym);
  }

  /** The state once a run that was being read has been put out. */
  ghost function Ended(s: Saved, site: nat): Saved
    requires |s.list| == |s.maps| == 256 && s.core.es >= -1
  {
    if site == 1 then EndRun(s) else s
  }

  lemma EndedIs(s: Saved, d: Body, k: nat, site: nat)
    requires Dealing(s, d, k, site) && Fits(d, k, 100000 * s.core.blockSize100k) && d.syms[k] > MTF.RUNB
    ensures |s.list| == |s.maps| == 256 && s.core.es >= -1
    ensures var e := Ended(s, site);
            Flushed(e, d, k) && e == s.(out := e.out, core := s.core.(es := e.core.es, nblock := e.core.nblock))
  {
    hide Row, RowFor, BlockFormat.WellFormed, MtfDecode.WellFormed, MtfDecode.After, MtfDecode.Bytes, Fits, InUse;
    if site == 1 { RunFlushed(s, d, k, 100000 * s.core.blockSize100k); } else { NoRunFlushed(s, d, k, site); }
  }

  lemma SettleByte(s: Saved, site: nat, sym: int, e: Saved, v: Saved)
    requires Sane(s) && s.core.at == Decoded(site, sym) && 1 < sym <= 256 && sym != s.core.nInUse + 1
    requires s.core.es >= -1 && e == Ended(s, site) && e
             == s.(out := e.out, core := s.core.(es := e.core.es, nblock := e.core.nblock))
    requires e.core.nblock < 100000 * s.core.blockSize100k
    requires v == e.(out := e.out + [e.maps[e.list[sym - 1]]], list := MTF.Front(e.list, sym - 1),
                     core := e.core.(nblock := e.core.nblock + 1))
    ensures Always(v.core) && Reading(v.core) && Settle(s) == NeedS(v, 2)
  {
    hide Row, NeedSymbol, MTF.Front;
    assert !e.core.at.BadData?;
  }

  lemma SymbolIs(d: Body, k: nat)
    requires BlockFormat.WellFormed(d) && k < |d.syms|
    ensures |d.used| == 256 && 0 <= d.syms[k] <= InUse(d.used) + 1
            && (d.syms[k] == InUse(d.used) + 1 <==> k == |d.syms| - 1)
  {
  }

  lemma TabledFacts(c: Core, d: Body)
    requires Tabled(c, d)
    ensures BlockFormat.WellFormed(d) && |d.used| == 256 && c.nInUse == InUse(d.used)
  {
  }

  lemma DealByte(s: Saved, d: Body, k: nat, site: nat)
    requires Dealing(s, d, k, site) && Fits(d, k, 100000 * s.core.blockSize100k) && d.syms[k] > MTF.RUNB
             && k + 1 < |d.syms|
    ensures var t := Settle(s); AtSymbol(t, d, k + 1, 2) && Tracking(t, d, k + 1, 2) && Kept(s, t)
  {
    hide Always, Reading, NeedS, Tracking, Tabled, Placed, Sane, Fits, Dealing, Settle, AtSymbol, Ended, Flushed,
      BlockFormat.WellFormed;
    DealingFacts(s, d, k, site);
    TabledFacts(s.core, d);
    var sym := d.syms[k];
    SettleSane(s);
    SymbolIs(d, k);
    EndedIs(s, d, k, site);
    var e := Ended(s, site);
    ByteTracks(e, d, k, 100000 * s.core.blockSize100k);
    FlushedSizes(e, d, k);
    var v := e.(out := e.out + [e.maps[e.list[sym - 1]]], list := MTF.Front(e.list, sym - 1),
                core := e.core.(nblock := e.core.nblock + 1));
    SettleByte(s, site, sym, e, v);
    SamePlace(s.core, v.core, d, k + 1);
    NextAsked(v, d, k + 1, 2);
  }

  lemma FlushedSizes(s: Saved, d: Body, k: nat)
    requires Flushed(s, d, k)
    ensures |s.list| == |s.maps| == 256
  {
    hide InUse, MtfDecode.WellFormed;
  }

  /** The column the block's symbols stand for, in a state at its end. */
  ghost predicate Complete(s: Saved, d: Body) {
    && |d.used| == 256 && MtfDecode.WellFormed(InUse(d.used), d.syms) && |s.maps| == 256 && s.core.at == Output
    && s.out == MtfDecode.Bytes(s.maps, MtfDecode.Meaning(InUse(d.used), d.syms)) && s.core.nblock == |s.out|
  }

  lemma DealEnd(s: Saved, d: Body, k: nat, site: nat)
    requires Dealing(s, d, k, site) && Fits(d, k, 100000 * s.core.blockSize100k) && k == |d.syms| - 1
    requires s.core.origPtr < |MtfDecode.Meaning(InUse(d.used), d.syms)|
    ensures Complete(Settle(s), d) && Kept(s, Settle(s)) && Ready(Settle(s))
  {
    hide Always, Reading, NeedS, Tracking, Tabled, Placed, Sane, Fits, Dealing, Settle, AtSymbol, Ended,
      BlockFormat.WellFormed, InUse,
      MtfDecode.WellFormed, MtfDecode.After, MtfDecode.Bytes;
    DealingFacts(s, d, k, site);
    TabledFacts(s.core, d);
    SettleSane(s);
    SymbolIs(d, k);
    EndedIs(s, d, k, site);
    SettleEnd(s, site, d.syms[k], Ended(s, site));
  }

  lemma SettleEnd(s: Saved, site: nat, sym: int, e: Saved)
    requires Sane(s) && s.core.at == Decoded(site, sym) && 1 < sym && sym == s.core.nInUse + 1 && s.core.es >= -1
    requires e == Ended(s, site) && e == s.(out := e.out, core := s.core.(es := e.core.es, nblock := e.core.nblock))
    requires s.core.origPtr < e.core.nblock
    ensures Settle(s) == With(e, e.core.(at := Output))
  {
    hide Row, NeedSymbol, MTF.Front;
  }

  // ---- all symbols ----

  /** The code of symbol k leads to that symbol. */
  lemma CodeOf(s: Saved, d: Body, k: nat, site: nat, rest: seq<bool>) returns (u: Saved)
    requires AtSymbol(s, d, k, site) && Tracking(s, d, k, site)
    ensures BlockFormat.WellFormed(d) && k < |d.syms| && Dealing(u, d, k, site) && Kept(s, u)
    ensures Sane(u) && Ready(Settle(u)) && Run(s, SymbolBits(d, k) + rest) == Run(Settle(u), rest)
  {
    hide Tabled, AtCode, AtSymbol, Placed, Run, Settle, Tracking, Sane, Ready, CodeBits, RowFor, Shortest,
      BlockFormat.WellFormed, InUse,
      SymbolBits, ValueOf, Dealing;
    AtSymbolFacts(s, d, k, site);
    var lens := d.lens[d.selectors[k / GROUP]];
    CodeRun(s, lens, InUse(d.used) + 2, site, d.syms[k], rest);
    u := Symboled(s, lens, site, d.syms[k]);
    SamePlace(s.core, u.core, d, k + 1);
    TrackingKept(s, u, d, k, site);
    DealingIs(u, d, k, site);
  }

  lemma DealingIs(s: Saved, d: Body, k: nat, site: nat)
    requires k < |d.syms| && s.core.at == Decoded(site, d.syms[k]) && Sane(s) && Tabled(s.core, d)
             && Placed(s.core, d, k + 1)
    requires Tracking(s, d, k, site)
    ensures Dealing(s, d, k, site)
  {
  }

  lemma TrackingKept(s: Saved, u: Saved, d: Body, k: nat, site: nat)
    requires Tracking(s, d, k, site)
    requires u.list == s.list && u.maps == s.maps && u.out == s.out && u.core.nblock == s.core.nblock
             && u.core.es == s.core.es && u.core.N == s.core.N
    ensures Tracking(u, d, k, site)
  {
    hide InUse, MtfDecode.WellFormed, MtfDecode.After, MtfDecode.Bytes;
  }

  lemma AtSymbolFacts(s: Saved, d: Body, k: nat, site: nat)
    requires AtSymbol(s, d, k, site)
    ensures BlockFormat.WellFormed(d) && |d.used| == 256 && k < |d.syms| && k / GROUP < |d.selectors|
            && d.selectors[k / GROUP] < |d.lens|
    ensures Tabled(s.core, d) && Placed(s.core, d, k + 1)
    ensures var lens := d.lens[d.selectors[k / GROUP]];
            AtCode(s, lens, InUse(d.used) + 2, site, false) && 0 <= d.syms[k] < |lens| && s.core.zn == Shortest(lens)
              && lens[d.syms[k]] >= 0
            && SymbolBits(d, k) == CodeBits(lens, d.syms[k])
  {
    assert Usable(d.lens[d.selectors[k / GROUP]], InUse(d.used) + 2);
    hide Shortest, KraftSum, CodeBits, InUse, Ready, Row, SymbolAt, BaseAt, LimitAt;
  }

  /** A symbol that is not the last. */
  lemma SymbolRun(s: Saved, d: Body, k: nat, site: nat, rest: seq<bool>) returns (t: Saved, site': nat)
    requires AtSymbol(s, d, k, site) && Tracking(s, d, k, site) && Fits(d, k, 100000 * s.core.blockSize100k)
             && k + 1 < |d.syms|
    ensures BlockFormat.WellFormed(d) && AtSymbol(t, d, k + 1, site') && Tracking(t, d, k + 1, site') && Kept(s, t)
    ensures Ready(t) && Run(s, SymbolBits(d, k) + rest) == Run(t, rest)
  {
    hide AtSymbol, Tracking, Fits, Ready, Sane, Run, SymbolBits, BlockFormat.WellFormed, InUse, Dealing, Settle;
    var u := CodeOf(s, d, k, site, rest);
    SymbolIs(d, k);
    t := Settle(u);
    if d.syms[k] <= MTF.RUNB {
      DealRun(u, d, k, site);
      site' := 1;
    } else {
      DealByte(u, d, k, site);
      site' := 2;
    }
  }

  /** The last symbol. */
  lemma LastRun(s: Saved, d: Body, k: nat, site: nat, rest: seq<bool>) returns (t: Saved)
    requires AtSymbol(s, d, k, site) && Tracking(s, d, k, site) && Fits(d, k, 100000 * s.core.blockSize100k)
             && k == |d.syms| - 1
    requires s.core.origPtr < |MtfDecode.Meaning(InUse(d.used), d.syms)|
    ensures BlockFormat.WellFormed(d) && Complete(t, d) && Kept(s, t) && Ready(t)
            && Run(s, SymbolBits(d, k) + rest) == Run(t, rest)
  {
    hide AtSymbol, Tracking, Fits, Complete, Ready, Sane, Run, SymbolBits, BlockFormat.WellFormed, MtfDecode.Meaning,
      InUse, Dealing, Settle;
    var u := CodeOf(s, d, k, site, rest);
    t := Settle(u);
    DealEnd(u, d, k, site);
  }

  lemma DataSplit(d: Body, k: nat, rest: seq<bool>)
    requires BlockFormat.WellFormed(d) && k < |d.syms|
    ensures DataFrom(d, k) + rest == SymbolBits(d, k) + (DataFrom(d, k + 1) + rest)
    ensures k + 1 == |d.syms| ==> DataFrom(d, k) + rest == SymbolBits(d, k) + rest
  {
    hide BlockFormat.WellFormed, DataFrom, SymbolBits;
    DataStep(d, k);
    DataStep(d, k + 1);
  }

  lemma KeptOn(s: Saved, t: Saved, u: Saved)
    requires Kept(s, t) && Kept(t, u)
    ensures Kept(s, u)
  {
  }

  /** From symbol k to the end of the block. */
  lemma {:induction false} DataRun(s: Saved, d: Body, k: nat, site: nat, rest: seq<bool>) returns (t: Saved)
    requires AtSymbol(s, d, k, site) && Tracking(s, d, k, site) && Acceptable(d, 100000 * s.core.blockSize100k)
    requires s.core.origPtr < |MtfDecode.Meaning(InUse(d.used), d.syms)|
    ensures BlockFormat.WellFormed(d)
    ensures k < |d.syms| && Complete(t, d) && Kept(s, t) && Ready(t) && Run(s, DataFrom(d, k) + rest) == Run(t, rest)
    decreases |d.syms| - k
  {
    hide AtSymbol, Tracking, Acceptable, Fits, Complete, Ready, Run, DataFrom, SymbolBits, BlockFormat.WellFormed,
      MtfDecode.Meaning, InUse;
    AtSymbolFacts(s, d, k, site);
    DataSplit(d, k, rest);
    AcceptableFits(d, 100000 * s.core.blockSize100k, k);
    if k + 1 < |d.syms| {
      var u, site' := SymbolRun(s, d, k, site, DataFrom(d, k + 1) + rest);
      t := DataRun(u, d, k + 1, site', rest);
      KeptOn(s, u, t);
    } else {
      t := LastRun(s, d, k, site, rest);
    }
  }

  lemma AcceptableFits(d: Body, room: nat, k: nat)
    requires Acceptable(d, room) && k < |d.syms|
    ensures Fits(d, k, room)
  {
    hide MtfDecode.After, MtfDecode.Length, MtfDecode.Meaning;
    AllFit(d, room);
  }

  // ---- blocks that are refused ----

  lemma DealBad(s: Saved, d: Body, k: nat, site: nat)
    requires Dealing(s, d, k, site) && 0 <= d.syms[k]
    requires !Fits(d, k, 100000 * s.core.blockSize100k)
             || (k == |d.syms| - 1 && s.core.origPtr >= |MtfDecode.Meaning(InUse(d.used), d.syms)|)
    ensures Settle(s).core.at == BadData
  {
    hide Always, Tracking, Tabled, Placed, Sane, Fits, Dealing, Settle, Ended, BlockFormat.WellFormed, InUse,
      MtfDecode.WellFormed, MtfDecode.After, MtfDecode.Bytes, MtfDecode.Length;
    DealingFacts(s, d, k, site);
    TabledFacts(s.core, d);
    SymbolIs(d, k);
    TrackingFacts(s, d, k, site);
    var room := 100000 * s.core.blockSize100k;
    if d.syms[k] <= MTF.RUNB {
      FitsIs(d, k, room);
      HeavyRefused(s, site, d.syms[k]);
    } else {
      FitsIs(d, k, room);
      FullRefused(s, site, d.syms[k]);
    }
  }

  lemma TrackingFacts(s: Saved, d: Body, k: nat, site: nat)
    requires Tracking(s, d, k, site)
    ensures |d.used| == 256 && MtfDecode.WellFormed(InUse(d.used), d.syms) && k < |d.syms|
    ensures var u := MtfDecode.After(InUse(d.used), d.syms, k);
            MtfDecode.Length(u) == s.core.nblock + (if site == 1 then s.core.es + 1 else 0)
              && u.weight == (if site == 1 then s.core.N else 1)
    ensures k == |d.syms| - 1 ==>
              |MtfDecode.Meaning(InUse(d.used), d.syms)| == s.core.nblock + (if site == 1 then s.core.es + 1 else 0)
  {
    hide InUse, MtfDecode.WellFormed, MTF.UndoFrom;
  }

  lemma FitsIs(d: Body, k: nat, room: nat)
    requires |d.used| == 256 && MtfDecode.WellFormed(InUse(d.used), d.syms) && k < |d.syms|
    ensures var u := MtfDecode.After(InUse(d.used), d.syms, k);
            Fits(d, k, room) <==> if d.syms[k] <= MTF.RUNB then k + 1 < |d.syms| ==> u.weight < MTF.RUN_LIMIT
                                  else MtfDecode.Length(u) + (if k + 1 < |d.syms| then 1 else 0) <= room
  {
    hide InUse, MtfDecode.WellFormed, MtfDecode.After;
  }

  lemma HeavyRefused(s: Saved, site: nat, sym: int)
    requires Sane(s) && s.core.at == Decoded(site, sym) && 0 <= sym <= 1
             && (if site == 1 then s.core.N else 1) >= MTF.RUN_LIMIT
    ensures Settle(s).core.at == BadData
  {
    hide Row;
  }

  /** No room, or no byte that the pointer points to. */
  lemma FullRefused(s: Saved, site: nat, sym: int)
    requires Sane(s) && s.core.at == Decoded(site, sym) && sym > 1
    requires var n := s.core.nblock + (if site == 1 then s.core.es + 1 else 0);
             if sym == s.core.nInUse + 1 then n > 100000 * s.core.blockSize100k || s.core.origPtr >= n
             else n + 1 > 100000 * s.core.blockSize100k
    ensures Settle(s).core.at == BadData
  {
    hide Row, MTF.Front, NeedSymbol;
  }

  /** If from some symbol on something does not fit, or the pointer is not in the block, the machine says so. */
  lemma {:induction false} DataRefused(s: Saved, d: Body, k: nat, site: nat, rest: seq<bool>, j: nat)
    requires AtSymbol(s, d, k, site) && Tracking(s, d, k, site) && k <= j < |d.syms|
    requires !Fits(d, j, 100000 * s.core.blockSize100k)
             || (|d.used| == 256 && MtfDecode.WellFormed(InUse(d.used), d.syms) && j == |d.syms| - 1
                 && s.core.origPtr >= |MtfDecode.Meaning(InUse(d.used), d.syms)|)
    ensures BlockFormat.WellFormed(d) && Ready(s) && Run(s, DataFrom(d, k) + rest).0.core.at == BadData
    decreases |d.syms| - k
  {
    hide AtSymbol, Tracking, Fits, Ready, Sane, Run, DataFrom, SymbolBits, BlockFormat.WellFormed, MtfDecode.Meaning,
      InUse, Dealing, Settle;
    AtSymbolFacts(s, d, k, site);
    AtSymbolReady(s, d, k, site);
    DataSplit(d, k, rest);
    SymbolIs(d, k);
    var more := DataFrom(d, k + 1) + rest;
    if k == j || !Fits(d, k, 100000 * s.core.blockSize100k) {
      var u := CodeOf(s, d, k, site, more);
      DealBad(u, d, k, site);
      Stopped(Settle(u), more);
    } else {
      var t, site' := SymbolRun(s, d, k, site, more);
      DataRefused(t, d, k + 1, site', rest, j);
    }
  }

  lemma AtSymbolReady(s: Saved, d: Body, k: nat, site: nat)
    requires AtSymbol(s, d, k, site)
    ensures Ready(s)
  {
    hide Tabled, Placed, RowFor, Usable;
  }
}
