/** BZ2_decompress on its own state: tables, lists and the stored column are kept in place,
    and a call may end wherever the input does. */
module Decompress {
  import opened Bits
  import opened Sequences
  import opened BitStream
  import opened Radix
  import opened BwtTheory
  import opened HuffmanForest
  import opened HuffmanCodes
  import opened MtfEncode
  import opened BlockFormat
  import opened DecompressMachine
  import opened DecompressSteps
  import opened DecompressRun
  import opened MtfTable
  import MTF = MoveToFront
  import MtfDecode

  // ---- selectors, maps, tables ----

  /** Takes position v to the front. */
  method PositionToFront(pos: array<Byte>, v0: nat, ghost n: nat)
    requires v0 < n <= pos.Length
    modifies pos
    ensures pos[..n] == MTF.Front(old(pos[..n]), v0) && pos[0] == old(pos[v0])
  {
    ghost var y0 := pos[..n];
    var v := v0;
    var tmp := pos[v];
    while v > 0
      invariant 0 <= v <= v0
      invariant forall k :: v < k <= v0 ==> pos[k] == y0[k - 1]
      invariant forall k :: 0 <= k <= v ==> pos[k] == y0[k]
      invariant forall k :: v0 < k < n ==> pos[k] == y0[k]
    {
      pos[v] := pos[v - 1];
      v := v - 1;
    }
    pos[0] := tmp;
    assert pos[..n] == MTF.Front(y0, v0);
  }

  lemma UndoNext(n: nat, mtf: seq<nat>, i: nat)
    requires 0 < n <= 256 && (forall k :: 0 <= k < |mtf| ==> mtf[k] < n) && i < |mtf|
    ensures var (list, sels) := UndoSel(n, mtf[..i]);
            UndoSel(n, mtf[..i + 1]) == (MTF.Front(list, mtf[i]), sels + [list[mtf[i]]])
  {
    assert mtf[..i + 1][..i] == mtf[..i];
  }

  /** Selector positions back to selectors. */
  method SelectorsBack(mtf: seq<nat>, nGroups: nat) returns (selector: seq<Byte>)
    requires 0 < nGroups <= 6 && forall k :: 0 <= k < |mtf| ==> mtf[k] < nGroups
    ensures selector == UndoSel(nGroups, mtf).1
  {
    hide MTF.Front, UndoSel;
    var pos := new Byte[6];
    for v := 0 to nGroups
      invariant forall k :: 0 <= k < v ==> pos[k] == k
    {
      pos[v] := v;
    }
    selector := [];
    UndoNone(nGroups, mtf);
    assert pos[..nGroups] == MTF.Identity(nGroups);
    for i := 0 to |mtf|
      invariant pos[..nGroups] == UndoSel(nGroups, mtf[..i]).0 && selector == UndoSel(nGroups, mtf[..i]).1
    {
      UndoNext(nGroups, mtf, i);
      ghost var l := pos[..nGroups];
      PositionToFront(pos, mtf[i], nGroups);
      assert pos[0] == l[mtf[i]];
      selector := selector + [pos[0]];
    }
    assert mtf[..|mtf|] == mtf;
  }

  lemma UndoNone(n: nat, mtf: seq<nat>)
    requires 0 < n <= 256
    ensures mtf[..0] == [] && UndoSel(n, mtf[..0]) == (MTF.Identity(n), [])
  {
  }

  /** makeMaps_d. */
  method MakeMapsBack(inUse: seq<bool>, seqToUnseq: array<Byte>) returns (nInUse: nat)
    requires |inUse| == seqToUnseq.Length == 256
    modifies seqToUnseq
    ensures nInUse == UsedBelow(inUse, 256) && seqToUnseq[..] == NewMaps(old(seqToUnseq[..]), inUse)
  {
    hide UsedBelow, Listed;
    ghost var was := seqToUnseq[..];
    nInUse := 0;
    NoneListed(inUse);
    for i := 0 to 256
      invariant nInUse == UsedBelow(inUse, i) <= i && seqToUnseq[..] == Listed(inUse, i) + was[nInUse..]
    {
      OneListed(inUse, i);
      ListedMore(inUse, i, was, seqToUnseq[..]);
      if inUse[i] {
        seqToUnseq[nInUse] := i;
        nInUse := nInUse + 1;
      }
    }
  }

  lemma ListedMore(used: seq<bool>, i: nat, was: seq<Byte>, m: seq<Byte>)
    requires i < |used| == |was| == 256 && UsedBelow(used, i) <= i && m == Listed(used, i) + was[UsedBelow(used, i)..]
    ensures |m| == 256 && UsedBelow(used, i) <= i
    ensures var n := UsedBelow(used, i);
            Listed(used, i + 1) + was[UsedBelow(used, i + 1)..] == if used[i] then m[n := i] else m
  {
    hide UsedBelow, Listed;
    OneListed(used, i);
    var n, l := UsedBelow(used, i), Listed(used, i);
    if used[i] {
      assert m[n := i] == l + [i] + was[n + 1..];
    } else {
      assert l + [] == l;
    }
  }

  lemma NoneListed(used: seq<bool>)
    requires |used| == 256
    ensures UsedBelow(used, 0) == 0 && Listed(used, 0) == []
  {
  }

  lemma OneListed(used: seq<bool>, i: nat)
    requires i < |used| == 256
    ensures UsedBelow(used, i) <= i && UsedBelow(used, i + 1) == UsedBelow(used, i) + (if used[i] then 1 else 0)
    ensures Listed(used, i + 1) == Listed(used, i) + (if used[i] then [i] else [])
  {
  }

  /** One table made over what it held. */
  method RemakeRow(was: Decoding, lens: seq<int>, ghost n: nat) returns (d: Decoding)
    requires Row(was) && FullRow(lens, n) && 0 < n <= MAX_ALPHA
    ensures d == NewRow(was, lens)
  {
    var minLen, maxLen := LengthRange(lens);
    RangeIs(lens, n);
    hide Shortest, Longest, LimitAt, BaseAt, SymbolAt;
    var length := new Byte[|lens|](i requires 0 <= i < |lens| => lens[i]);
    assert Ints(length[..|lens|]) == lens;
    var limit := new int[MAX_ALPHA](i requires 0 <= i < |was.limit| => was.limit[i]);
    var base := new int[MAX_ALPHA](i requires 0 <= i < |was.base| => was.base[i]);
    var perm := new int[MAX_ALPHA](i requires 0 <= i < |was.perm| => was.perm[i]);
    CreateDecodeTables(limit, base, perm, length, minLen, maxLen, |lens|);
    d := Decoding(minLen, limit[..], base[..], perm[..]);
    assert d.limit == NewRow(was, lens).limit && d.base == NewRow(was, lens).base && d.perm == NewRow(was, lens).perm;
  }

  lemma RangeIs(lens: seq<int>, n: nat)
    requires FullRow(lens, n) && 0 < n <= MAX_ALPHA
    ensures Lengths(lens, Shortest(lens), Longest(lens))
  {
    assert Shortest(lens) in lens && Longest(lens) in lens;
  }

  method RemakeRows(was: seq<Decoding>, lens: seq<seq<int>>, ghost n: nat) returns (d: seq<Decoding>)
    requires |lens| <= |was| == 6 && (forall g :: 0 <= g < |was| ==> Row(was[g])) && 0 < n <= MAX_ALPHA
    requires forall g :: 0 <= g < |lens| ==> FullRow(lens[g], n)
    ensures forall g :: 0 <= g < |lens| ==> 0 < |lens[g]| <= MAX_ALPHA
    ensures d == NewRows(was, lens, |lens|)
  {
    NewRowsSane(was, lens, n);
    hide Row, NewRow, FullRow;
    d := was;
    for t := 0 to |lens|
      invariant d == NewRows(was, lens, t)
    {
      var row := RemakeRow(was[t], lens[t], n);
      assert d[t] == was[t];
      d := d[t := row];
    }
  }

  // ---- what stays as it is from label to label ----

  /** The column's memory has been set up. */
  predicate Sized(l: Label) { !l.Magic? && !l.BadMagic? && !l.Allocate? }

  /** Symbols are being read. */
  predicate Midway(l: Label) { l.Mtf? || l.Decoded? }

  lemma HeaderLevel(c: Core, v: nat)
    ensures Sized(c.at) ==> Sized(StepHeader(c, v).at) && StepHeader(c, v).blockSize100k == c.blockSize100k
    ensures !Sized(c.at) ==> !Sized(StepHeader(c, v).at)
    ensures !c.at.Output? ==> !StepHeader(c, v).at.Output?
  {
  }

  lemma MappingLevel(c: Core, v: nat)
    requires SaneCore(c) && (c.at.Mapping1? || c.at.Mapping2?)
    ensures !StepMapping(c, v).at.Output? && Sized(StepMapping(c, v).at)
            && StepMapping(c, v).blockSize100k == c.blockSize100k
  {
    hide Row;
    MappingLabels(c, v);
    match c.at
    case Mapping1 =>
      var c' := c.(inUse16 := c.inUse16 + [v == 1]);
      if |c'.inUse16| == 16 { SeekLevel(c'.(inUse := NoneUsed()), 0); }
    case Mapping2 =>
      var c' := if v == 1 then c.(inUse := c.inUse[c.i * 16 + c.j := true]) else c;
      if c.j + 1 >= 16 { SeekLevel(c', c.i + 1); }
  }

  lemma {:induction false} SeekLevel(c: Core, i: nat)
    requires |c.inUse16| == 16 && i <= 16
    ensures (SeekRow(c, i).at == MakeMaps || SeekRow(c, i).at == Mapping2)
            && SeekRow(c, i).blockSize100k == c.blockSize100k
    decreases 16 - i
  {
    if i < 16 && !c.inUse16[i] { SeekLevel(c, i + 1); }
  }

  lemma SelectorLevel(c: Core, v: nat)
    requires c.at.Selector1? || c.at.Selector2? || c.at.Selector3?
    ensures !StepSelectors(c, v).at.Output? && Sized(StepSelectors(c, v).at)
            && StepSelectors(c, v).blockSize100k == c.blockSize100k
  {
  }

  lemma CodingLevel(c: Core, v: nat)
    requires c.at.Coding1? || c.at.Coding2? || c.at.Coding3?
    ensures !StepCoding(c, v).at.Output? && Sized(StepCoding(c, v).at)
            && StepCoding(c, v).blockSize100k == c.blockSize100k
  {
  }

  lemma MtfLevel(c: Core, v: nat)
    requires SaneCore(c) && c.at.Mtf?
    ensures !StepCore(c, v).at.Output? && Sized(StepCore(c, v).at) && StepCore(c, v).blockSize100k == c.blockSize100k
  {
    hide Row, Always;
  }

  lemma LevelStays(c: Core, v: nat)
    requires SaneCore(c)
    ensures Sized(c.at) ==> Sized(StepCore(c, v).at) && StepCore(c, v).blockSize100k == c.blockSize100k
    ensures !Sized(c.at) ==> !Sized(StepCore(c, v).at)
    ensures (Midway(StepCore(c, v).at) ==> Midway(c.at)) && (!c.at.Output? ==> !StepCore(c, v).at.Output?)
  {
    LabelsCome(c, v);
    hide Row, Always, StepHeader, StepMapping, StepSelectors, StepCoding;
    match c.at
    case Mapping1 => MappingLevel(c, v);
    case Mapping2 => MappingLevel(c, v);
    case Selector1 => SelectorLevel(c, v);
    case Selector2 => SelectorLevel(c, v);
    case Selector3 => SelectorLevel(c, v);
    case Coding1 => CodingLevel(c, v);
    case Coding2 => CodingLevel(c, v);
    case Coding3 => CodingLevel(c, v);
    case Mtf(_, _) => MtfLevel(c, v);
    case _ => HeaderLevel(c, v);
  }

  // ---- the decompressor ----

  function EmptyRow(): (d: Decoding)
    ensures Row(d)
  {
    Decoding(0, seq(MAX_ALPHA, _ => 0), seq(MAX_ALPHA, _ => 0), seq(MAX_ALPHA, _ => 0))
  }

  /** The core at the start of a stream. */
  function FirstCore(): (c: Core)
    ensures SaneCore(c) && Asks(c) && c.at == Magic(1)
  {
    Core(Magic(1), 0, 0, 0, 0, false, 0, [], NoneUsed(), 0, 0, 0, 0, 0, [], [], 0, [], [], seq(6, _ => EmptyRow()), 0,
         0, 0, 0, 0, 0, 0, 0)
  }

  class Decompressor {
    const small: bool
    const table: Table
    const seqToUnseq: array<Byte>
    const unzftab: array<int>
    var tt: array<Word>
    var ll16: array<Half>
    var core: Core
    var bsBuff: Word
    var bsLive: nat
    ghost var saved: Saved

    /** No two arrays are the same. */
    ghost predicate Apart()
      reads this`tt, this`ll16
    {
      && table.mtfa.Length == MTFA_SIZE && table.mtfbase.Length == 16 && seqToUnseq.Length == 256
         && unzftab.Length == 256
      && table.mtfa as object != table.mtfbase && table.mtfa != seqToUnseq && table.mtfa as object != unzftab
      && table.mtfa as object != tt && table.mtfa as object != ll16
      && table.mtfbase as object != seqToUnseq && table.mtfbase != unzftab && table.mtfbase as object != tt
         && table.mtfbase as object != ll16
      && seqToUnseq as object != unzftab && seqToUnseq as object != tt && seqToUnseq as object != ll16
      && unzftab as object != tt && unzftab as object != ll16 && tt as object != ll16
    }

    /** The column decoded so far is stored, and its bytes are counted. */
    ghost predicate Holding()
      reads this`tt, this`ll16, this`saved, tt, ll16, unzftab
    {
      MtfDecode.Kept(small, tt[..], ll16[..], unzftab[..], saved.out)
    }

    /** The parts of the state agree; there may be work that needs no bits. */
    ghost predicate Agree()
      reads this`tt, this`ll16, this`saved, this`core, table, table.mtfa, table.mtfbase, seqToUnseq, unzftab, tt, ll16
    {
      && Apart() && table.Valid() && saved.core == core && Sane(saved) && table.list == saved.list
         && seqToUnseq[..] == saved.maps
      && (Sized(core.at) ==> tt.Length == ll16.Length == 100000 * core.blockSize100k)
      && (Midway(core.at) ==> Holding())
    }

    ghost predicate Valid()
      reads this`tt, this`ll16, this`saved, this`core, this`bsLive, table, table.mtfa, table.mtfbase, seqToUnseq,
            unzftab, tt, ll16
    {
      Agree() && Asks(core) && bsLive <= 32
    }

    ghost function Now(): Config
      reads this`saved, this`bsBuff, this`bsLive
    {
      Config(saved, bsBuff, bsLive)
    }

    /** BZ2_bzDecompressInit. */
    constructor (small: bool)
      ensures Valid() && core == FirstCore() && bsLive == 0 && this.small == small && saved.out == []
      ensures fresh(table) && fresh(table.mtfa) && fresh(table.mtfbase) && fresh(seqToUnseq) && fresh(unzftab)
              && fresh(tt) && fresh(ll16)
    {
      hide MtfTable.Holds;
      this.small := small;
      var t := new Table();
      var m := new Byte[256](_ => 0);
      table, seqToUnseq, unzftab := t, m, new int[256];
      tt, ll16 := new Word[0], new Half[0];
      core, bsBuff, bsLive := FirstCore(), 0, 0;
      saved := Saved(FirstCore(), MTF.Identity(256), m[..], []);
    }

    /** No more bits, and no more bytes for the block. */
    method Refuse()
      requires Agree() && Sized(core.at)
      modifies this`core, this`saved
      ensures Agree() && saved == BadS(old(saved)) && core.at == BadData
    {
      hide Row, MtfDecode.Kept, MtfTable.Holds;
      core := Bad(core);
      saved := With(saved, core);
    }

    /** The next symbol is asked for. */
    method Need(site: nat)
      requires Apart() && table.Valid() && saved.core == core && table.list == saved.list
               && seqToUnseq[..] == saved.maps
      requires Always(core) && Reading(core) && |saved.list| == 256 && |saved.out| == core.nblock && site < 3
               && Holding()
      requires tt.Length == ll16.Length == 100000 * core.blockSize100k
      modifies this`core, this`saved
      ensures Agree() && saved == NeedS(old(saved), site) && (core.at.Mtf? || core.at == BadData)
    {
      hide Row, MtfDecode.Kept, MtfTable.Holds;
      NeedFits(core);
      NeedSane(saved, site);
      core := NeedSymbol(core, site);
      saved := With(saved, core);
    }

    /** RUNA or RUNB. */
    method TakeRun(sym: int)
      requires Agree() && Midway(core.at) && Reading(core) && 0 <= sym <= 1 && |saved.out| == core.nblock
      modifies this`core, this`saved
      ensures Agree() && saved == InRun(old(saved), sym) && (core.at.Mtf? || core.at == BadData)
    {
      hide Row, MtfDecode.Kept, MtfTable.Holds;
      if core.N >= MTF.RUN_LIMIT { Refuse(); return; }
      RunPositive(core.N, sym);
      core := core.(es := core.es + (sym + 1) * core.N, N := core.N * 2);
      saved := With(saved, core);
      Need(1);
    }

    /** A run stored and counted, if there is room. */
    method KeepRun(es: nat) returns (ok: bool, nblock: nat)
      requires Apart() && table.Valid() && Holding() && |table.list| == 256
               && core.nblock == |saved.out| <= 100000 * core.blockSize100k
      requires tt.Length == ll16.Length == 100000 * core.blockSize100k
      modifies tt, ll16, unzftab
      ensures table.Valid() && seqToUnseq[..] == old(seqToUnseq[..])
      ensures ok <==> core.nblock + es <= 100000 * core.blockSize100k
      ensures ok ==> nblock == core.nblock + es
                     && MtfDecode.Kept(small, tt[..], ll16[..], unzftab[..],
                                       saved.out + Rep(seqToUnseq[table.list[0]], es))
    {
      hide MtfTable.Holds, MtfDecode.Kept;
      ghost var maps, a, b := seqToUnseq[..], table.mtfa[..], table.mtfbase[..];
      var c := table.First();
      var uc := seqToUnseq[c];
      ok, nblock := MtfDecode.StoreRun(small, tt, ll16, unzftab, core.nblock, 100000 * core.blockSize100k, uc, es,
                                       saved.out);
      assert seqToUnseq[..] == maps && table.mtfa[..] == a && table.mtfbase[..] == b;
      assert Rep(uc, es) == seq(es, _ => uc);
    }

    /** The run that has ended is stored, unless there is no room for it. */
    method PutRun()
      requires Agree() && core.at.Decoded?
      modifies this`core, this`saved, tt, ll16, unzftab
      ensures Agree() && saved == EndRun(old(saved)) && (core.at == old(core.at) || core.at == BadData)
    {
      hide Row, MtfDecode.Kept, MtfTable.Holds;
      var es: nat := core.es + 1;
      ghost var s := saved;
      var ok, nblock := KeepRun(es);
      assert seqToUnseq[..] == s.maps;
      if !ok {
        core := Bad(core);
        saved := With(saved, core);
        return;
      }
      core := core.(es := 0, nblock := nblock);
      saved := saved.(out := s.out + Rep(s.maps[s.list[0]], es), core := core);
    }

    /** The byte at a position of the list, which moves to the front. */
    method Lookup(nn: nat) returns (uc: Byte)
      requires Apart() && table.Valid() && |table.list| == 256 && nn < 256
      modifies table, table.mtfa, table.mtfbase
      ensures Apart() && table.Valid() && table.list == MTF.Front(old(table.list), nn)
              && uc == seqToUnseq[old(table.list)[nn]]
      ensures tt[..] == old(tt[..]) && ll16[..] == old(ll16[..]) && unzftab[..] == old(unzftab[..])
              && seqToUnseq[..] == old(seqToUnseq[..])
    {
      hide MtfTable.Holds, MTF.Front;
      var x := table.Take(nn);
      uc := seqToUnseq[x];
    }

    /** A byte stored and counted. */
    method Keep(uc: Byte)
      requires Apart() && table.Valid() && Holding() && |saved.out| < tt.Length == ll16.Length
               && core.nblock == |saved.out|
      modifies tt, ll16, unzftab
      ensures MtfDecode.Kept(small, tt[..], ll16[..], unzftab[..], saved.out + [uc])
      ensures table.Valid() && seqToUnseq[..] == old(seqToUnseq[..])
    {
      hide MtfTable.Holds, MtfDecode.Kept;
      ghost var a, b := table.mtfa[..], table.mtfbase[..];
      MtfDecode.StoreOne(small, tt, ll16, unzftab, core.nblock, uc, saved.out);
      assert table.mtfa[..] == a && table.mtfbase[..] == b;
    }

    /** Any other symbol: its byte is looked up, moved to the front and stored. */
    method PutByte(sym: int)
      requires Agree() && core.at.Decoded? && 1 < sym < MAX_ALPHA
      modifies this`core, this`saved, table, table.mtfa, table.mtfbase, tt, ll16, unzftab
      ensures Agree() && saved == OneByte(old(saved), sym) && (core.at.Mtf? || core.at == BadData)
    {
      hide Row, MtfDecode.Kept, MtfTable.Holds, MTF.Front;
      if core.nblock >= 100000 * core.blockSize100k || sym > 256 { Refuse(); return; }
      var uc := Lookup(sym - 1);
      Keep(uc);
      core := core.(nblock := core.nblock + 1);
      saved := saved.(out := saved.out + [uc], list := MTF.Front(saved.list, sym - 1), core := core);
      Need(2);
    }

    /** A symbol with no run pending. */
    method TakeSymbol(sym: int)
      requires Agree() && core.at.Decoded? && 0 <= sym < MAX_ALPHA
      modifies this`core, this`saved, table, table.mtfa, table.mtfbase, tt, ll16, unzftab
      ensures Agree() && saved == Main(old(saved), sym) && (core.at.Mtf? || core.at == BadData || core.at == Output)
      ensures core.at == Output ==> Holding()
    {
      hide Row, MtfDecode.Kept, MtfTable.Holds, MTF.Front;
      if sym == core.nInUse + 1 {
        if core.origPtr >= core.nblock {
          Refuse();
        } else {
          core := core.(at := Output);
          saved := With(saved, core);
        }
      } else if sym <= 1 {
        core := core.(es := -1, N := 1);
        saved := With(saved, core);
        TakeRun(sym);
      } else {
        PutByte(sym);
      }
    }

    method SettleSymbol(site: nat, sym: int)
      requires Agree() && core.at == Decoded(site, sym)
      modifies this`core, this`saved, table, table.mtfa, table.mtfbase, tt, ll16, unzftab
      ensures Agree() && saved == Settle(old(saved)) && (core.at.Mtf? || core.at == BadData || core.at == Output)
      ensures core.at == Output ==> Holding()
    {
      hide Row, MtfDecode.Kept, MtfTable.Holds, MTF.Front, Main, InRun;
      if site == 1 {
        if sym <= 1 { TakeRun(sym); return; }
        PutRun();
        if core.at.BadData? { return; }
      }
      TakeSymbol(sym);
    }

    method SettleTables()
      requires Agree() && core.at == MakeTables
      modifies this`core, this`saved, table, table.mtfa, table.mtfbase, tt, ll16, unzftab
      ensures Agree() && saved == Settle(old(saved)) && (core.at.Mtf? || core.at == BadData)
    {
      hide Row, MtfTable.Holds, NewRow, NewRows, FullRow;
      ghost var s, maps := saved, seqToUnseq[..];
      NewRowsSane(core.rows, core.lens, core.nInUse + 2);
      var rows := RemakeRows(core.rows, core.lens, core.nInUse + 2);
      for i := 0 to 256
        invariant forall v :: 0 <= v < i ==> unzftab[v] == 0
        invariant Agree() && saved == s && core.at == MakeTables && seqToUnseq[..] == maps
      {
        unzftab[i] := 0;
      }
      ghost var t0, l0, u0 := tt[..], ll16[..], unzftab[..];
      table.Reset();
      assert seqToUnseq[..] == maps && tt[..] == t0 && ll16[..] == l0 && unzftab[..] == u0;
      core := core.(rows := rows, groupNo := -1, groupPos := 0, gSel := 0, es := 0, N := 1, nblock := 0);
      saved := saved.(list := MTF.Identity(256), out := [], core := core);
      NothingKept(small, tt[..], ll16[..], unzftab[..]);
      Need(0);
    }

    /** The memory for the column, now that the block size is known. */
    method SettleMemory()
      requires Agree() && core.at == Allocate
      modifies this`core, this`saved, this`tt, this`ll16
      ensures Agree() && saved == Settle(old(saved)) && core.at == BlkHdr(1) && fresh(tt) && fresh(ll16)
    {
      hide Row, MtfDecode.Kept, MtfTable.Holds;
      tt, ll16 := new Word[100000 * core.blockSize100k], new Half[100000 * core.blockSize100k];
      core := core.(at := BlkHdr(1));
      saved := With(saved, core);
    }

    method SettleMaps()
      requires Agree() && core.at == MakeMaps
      modifies this`core, this`saved, seqToUnseq
      ensures Agree() && saved == Settle(old(saved)) && (core.at == BadData || core.at == Selector1)
    {
      hide Row, MtfDecode.Kept, MtfTable.Holds, NewMaps;
      ghost var a, b := table.mtfa[..], table.mtfbase[..];
      var n := MakeMapsBack(core.inUse, seqToUnseq);
      assert table.mtfa[..] == a && table.mtfbase[..] == b;
      core := core.(nInUse := n, at := if n == 0 then BadData else Selector1);
      saved := saved.(maps := seqToUnseq[..], core := core);
    }

    method SettleSelectors()
      requires Agree() && core.at == UndoSelectors
      modifies this`core, this`saved
      ensures Agree() && saved == Settle(old(saved)) && core.at == Coding1
    {
      hide Row, MtfDecode.Kept, MtfTable.Holds, UndoSel;
      var selector := SelectorsBack(core.selectorMtf, core.nGroups);
      core := core.(selector := selector, lens := [], at := Coding1);
      saved := With(saved, core);
    }

    lemma SettledAlready()
      requires Agree() && Asks(core)
      ensures Settle(saved) == saved
    {
      hide SaneCore;
    }

    /** The bits asked for have come. */
    method Advance(v: nat)
      requires Valid() && !Terminal(core.at)
      modifies this`core, this`saved, this`tt, this`ll16, table, table.mtfa, table.mtfbase, tt, ll16, unzftab,
               seqToUnseq
      ensures Valid() && saved == Step(old(saved), v) && (core.at == Output ==> Holding())
      ensures (tt == old(tt) && ll16 == old(ll16)) || (fresh(tt) && fresh(ll16))
    {
      hide Row, SaneCore, MtfDecode.Kept, MtfTable.Holds, StepCore, Settle;
      AfterCore(saved, v);
      StepSane(saved, v);
      LevelStays(core, v);
      core := StepCore(core, v);
      saved := With(saved, core);
      match core.at
      case Decoded(site, sym) => SettleSymbol(site, sym);
      case MakeTables => SettleTables();
      case Allocate => SettleMemory();
      case MakeMaps => SettleMaps();
      case UndoSelectors => SettleSelectors();
      case _ => SettledAlready();
    }

    /** GET_BITS, when the bits are there. */
    method Consumed()
      requires Valid() && !Terminal(core.at) && Want(core) <= bsLive
      modifies this`bsLive, this`core, this`saved, this`tt, this`ll16, table, table.mtfa, table.mtfbase, tt, ll16,
               unzftab, seqToUnseq
      ensures Valid() && Proper(old(Now())) && Now() == Consume(old(Now())) && (core.at == Output ==> Holding())
      ensures Want(old(core)) <= old(bsLive) && bsLive < old(bsLive)
      ensures (tt == old(tt) && ll16 == old(ll16)) || (fresh(tt) && fresh(ll16))
    {
      hide Row, Sane, Step, Agree, MtfDecode.Kept, MtfTable.Holds, High, Low;
      ghost var c := Now();
      ProperNow();
      ConsumeProper(c);
      var n := Want(core);
      var v := Low(High(bsBuff, bsLive - n), n);
      bsLive := bsLive - n;
      Advance(v);
    }

    lemma ProperNow()
      requires Valid()
      ensures Proper(Now()) && Now().saved.core == core
    {
      hide SaneCore, MtfTable.Holds, MtfDecode.Kept;
    }

    /** GET_BITS, when they are not. */
    method Pulled(b: Byte)
      requires Valid() && bsLive <= 24
      modifies this`bsBuff, this`bsLive
      ensures Valid() && Now() == Pull(old(Now()), b)
    {
      hide Agree, BitOr;
      ShiftInByte(bsBuff, bsLive, b);
      bsBuff := BitOr(bsBuff * 256 % 0x1_0000_0000, b);
      bsLive := bsLive + 8;
    }

    /** BZ2_decompress: one call, on the input at hand. */
    method Decompress(input: seq<Byte>) returns (rest: seq<Byte>)
      requires Valid()
      modifies this`bsBuff, this`bsLive, this`core, this`saved, this`tt, this`ll16
      modifies table, table.mtfa, table.mtfbase, tt, ll16, unzftab, seqToUnseq
      ensures Valid() && Proper(old(Now())) && (Now(), rest) == RunBytes(old(Now()), input)
      ensures core.at == Output && old(core.at) != Output ==> Holding()
      ensures old(Terminal(core.at) && Holding()) ==> Terminal(core.at) && Holding()
      ensures (tt == old(tt) && ll16 == old(ll16)) || (fresh(tt) && fresh(ll16))
    {
      hide Valid, Proper, Holding, Consume, Pull, Sane;
      ProperNow();
      rest := input;
      while true
        invariant Valid() && Proper(old(Now())) && Proper(Now()) && RunBytes(Now(), rest) == RunBytes(old(Now()), input)
        invariant core.at == Output && old(core.at) != Output ==> Holding()
        invariant old(Terminal(core.at) && Holding()) ==> Terminal(core.at) && Holding()
        invariant (tt == old(tt) && ll16 == old(ll16)) || (fresh(tt) && fresh(ll16))
        decreases |rest|, bsLive
      {
        ProperNow();
        if Terminal(core.at) { break; }
        if Want(core) <= bsLive {
          Consumed();
          ProperNow();
        } else {
          if rest == [] { break; }
          WantSmall(Now());
          Pulled(rest[0]);
          ProperNow();
          rest := rest[1..];
        }
      }
    }

    /** The block has been put out: the next is to be read. */
    method NextBlock()
      requires Valid() && core.at == Output
      modifies this`core, this`saved
      ensures Valid() && core.at == BlkHdr(1) && core.blockSize100k == old(core.blockSize100k)
              && core.rows == old(core.rows)
    {
      hide Row, MtfDecode.Kept, MtfTable.Holds;
      core := core.(at := BlkHdr(1));
      saved := With(saved, core);
    }

    /** Calls on one piece of input after another: what one call leaves is given to the next. */
    method Feed(pieces: seq<seq<Byte>>) returns (rest: seq<Byte>)
      requires Valid() && pieces != []
      modifies this`bsBuff, this`bsLive, this`core, this`saved, this`tt, this`ll16
      modifies table, table.mtfa, table.mtfbase, tt, ll16, unzftab, seqToUnseq
      ensures Valid() && Proper(old(Now())) && (Now(), rest) == RunBytes(old(Now()), Concat(pieces))
      ensures core.at == Output && old(core.at) != Output ==> Holding()
      ensures (tt == old(tt) && ll16 == old(ll16)) || (fresh(tt) && fresh(ll16))
    {
      hide Valid, Proper, Holding, RunBytes, Concat, Sane;
      ProperNow();
      ghost var c := Now();
      PiecesDoNotMatter(c, pieces);
      rest := [];
      assert pieces[0..] == pieces;
      for i := 0 to |pieces|
        invariant Valid() && Proper(c) && Proper(Now())
                  && RunPieces(Now(), rest, pieces[i..]) == RunPieces(c, [], pieces)
        invariant core.at == Output && old(core.at) != Output ==> Holding()
        invariant (tt == old(tt) && ll16 == old(ll16)) || (fresh(tt) && fresh(ll16))
      {
        PiecesNext(Now(), rest, pieces, i);
        rest := Decompress(rest + pieces[i]);
        ProperNow();
      }
      assert pieces[|pieces|..] == [];
    }
  }

  lemma NothingKept(small: bool, tt: seq<Word>, ll16: seq<Half>, unzftab: seq<int>)
    requires |unzftab| == 256 && forall v :: 0 <= v < 256 ==> unzftab[v] == 0
    ensures MtfDecode.Kept(small, tt, ll16, unzftab, [])
  {
    assert MtfDecode.Stored(small, tt, ll16, 0) == [];
  }
}
