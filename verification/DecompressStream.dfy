/** BZ2_bzDecompress: blocks are read and put out as input and room allow, checksums compared. */
module DecompressStream {
  import opened Bits
  import opened Rotations
  import opened Radix
  import opened BwtTheory
  import opened BwtInverse
  import opened BwtSmall
  import opened SmallPointers
  import opened BitStream
  import opened RunLength
  import opened BlockCrc
  import opened MtfEncode
  import opened MtfRoundTrip
  import opened BlockFormat
  import opened BlockParts
  import opened StreamFormat
  import opened DecompressMachine
  import opened DecompressSteps
  import opened DecompressRun
  import opened DecompressHeader
  import opened DecompressData
  import opened DecompressBlock
  import opened DecompressFrame
  import opened Decompress
  import opened BlockOutput
  import MtfTable
  import MTF = MoveToFront
  import MtfDecode

  // ---- what a block's body decodes to ----

  lemma {:induction false} ListedAt(used: seq<bool>, n: nat, c: nat)
    requires c < n <= |used| <= 256 && used[c]
    ensures UsedBelow(used, c) < |Listed(used, n)| && Listed(used, n)[UsedBelow(used, c)] == c
  {
    if c < n - 1 { ListedAt(used, n - 1, c); }
  }

  lemma NewMapsBack(was: seq<Byte>, used: seq<bool>)
    requires |was| == |used| == 256
    ensures MapsBack(used, NewMaps(was, used))
  {
    hide Listed, UsedBelow;
    forall c | 0 <= c < 256 && used[c] ensures UsedBelow(used, c) < 256 && NewMaps(was, used)[UsedBelow(used, c)] == c {
      ListedAt(used, 256, c);
    }
  }

  /** The body of a sent block is accepted, and means the block's last column. */
  lemma GoodAccepted(x: Sent, level: nat, maps: seq<Byte>)
    requires Good(x, level) && MapsBack(x.body.used, maps)
    ensures BlockFormat.WellFormed(x.body) && Acceptable(x.body, 100000 * level) && IsPerm(x.order, |x.block|)
    ensures var m := MtfDecode.Meaning(InUse(x.body.used), x.body.syms);
            |m| == |x.block| && MtfDecode.Bytes(maps, m) == LastColumn(x.block, x.order) && x.body.origPtr < |m|
  {
    hide MTF.Symbols, SortedRotations, MtfDecode.WellFormed, MtfDecode.Heavy, MtfDecode.Meaning, BlockFormat.WellFormed,
      Whole, InUse, Describes;
    GoodFacts(x, level);
    DescribesFacts(x.body, x.block, x.order);
    SymbolsDecoded(InUse(x.body.used), Column(x.block, x.order, x.body.used));
    ColumnBytes(x.block, x.order, x.body.used, maps);
  }

  // ---- from the column to output ----

  lemma StoredAs(small: bool, tt: seq<Word>, ll16: seq<Half>, unzftab: seq<int>, out: seq<int>)
    requires MtfDecode.Kept(small, tt, ll16, unzftab, out)
    ensures |out| <= |tt| && |out| <= |ll16| && |unzftab| == 256
    ensures forall q :: 0 <= q < |out| ==> out[q] == if small then ll16[q] else tt[q]
    ensures forall v :: 0 <= v < 256 ==> unzftab[v] == Equal(out, v)
  {
    hide Equal;
    assert MtfDecode.Stored(small, tt, ll16, |out|) == out;
  }

  /** What a column in memory becomes: a walk over the block, one byte fetched. */
  method BuildOutput(small: bool, tt: array<Word>, ll16: array<Half>, unzftab: array<int>, nblock: nat, origPtr: nat,
      ghost b: Block, ghost f: seq<int>)
    returns (o: DState)
    requires tt as object != ll16 && tt as object != unzftab && ll16 as object != unzftab && unzftab.Length == 256
    requires SortedRotations(b, f) && |b| <= MAX_BLOCK && origPtr < |b| && f[origPtr] == 0 && Whole(b) && IsPerm(f, |b|)
    requires nblock == |b| <= tt.Length == ll16.Length && MtfDecode.Kept(small, tt[..], ll16[..], unzftab[..],
                                                                         LastColumn(b, f))
    modifies tt, ll16
    ensures fresh(o) && o.Valid() && o.b == b && o.Rest() == Expand(b) && o.calculatedBlockCRC == CRC_START
    ensures o.tt == tt && o.ll16 == ll16 && fresh(o.ll4) && fresh(o.cftab)
  {
    hide SortedRotations, MtfDecode.Kept, Below, Equal, LastColumn, SmallWalk, FastWalk, Pointers, Whole, Expand,
      DState.Valid, DState.Rest;
    StoredAs(small, tt[..], ll16[..], unzftab[..], LastColumn(b, f));
    var cftab := new int[257];
    ghost var t0, l0 := tt[..], ll16[..];
    BuildStarts(unzftab, cftab, LastColumn(b, f));
    assert tt[..] == t0 && ll16[..] == l0;
    var ll4, cftabCopy := new Byte[(1 + tt.Length) / 2], new int[257];
    var tPos := 0;
    ghost var path: seq<int> := [];
    if small {
      tPos, path := InvertSmall(ll16, ll4, cftab, cftabCopy, nblock, origPtr, b, f);
    } else {
      tPos := InvertFast(tt, cftab, nblock, origPtr, b, f);
    }
    o := new DState(small, tt, ll16, ll4, cftab, nblock, tPos, b, f, path);
  }

  method BeginOutput(d: Decompressor, ghost x: Sent, ghost level: nat) returns (o: DState)
    requires d.Valid() && d.core.at == Output && d.Holding() && Good(x, level) && IsPerm(x.order, |x.block|)
    requires d.saved.out == LastColumn(x.block, x.order) && d.core.nblock == |x.block|
             && d.core.origPtr == x.body.origPtr
    modifies d.tt, d.ll16
    ensures d.Valid() && fresh(o) && o.Valid() && o.b == x.block && o.Rest() == Expand(x.block)
            && o.calculatedBlockCRC == CRC_START
    ensures o.tt == d.tt && o.ll16 == d.ll16 && fresh(o.ll4) && fresh(o.cftab)
  {
    hide SortedRotations, Describes, MtfDecode.Kept, MtfTable.Holds, LastColumn, Whole, Expand, DState.Valid,
      DState.Rest, Sane, BlockFormat.WellFormed;
    GoodFacts(x, level);
    DescribesFacts(x.body, x.block, x.order);
    StoredAs(d.small, d.tt[..], d.ll16[..], d.unzftab[..], LastColumn(x.block, x.order));
    ghost var m, a, base := d.seqToUnseq[..], d.table.mtfa[..], d.table.mtfbase[..];
    o := BuildOutput(d.small, d.tt, d.ll16, d.unzftab, d.core.nblock, d.core.origPtr, x.block, x.order);
    assert d.seqToUnseq[..] == m && d.table.mtfa[..] == a && d.table.mtfbase[..] == base;
  }

  // ---- the stream from a block on ----

  /** The blocks from k on, the trailer, and whatever follows. */
  ghost function Ahead(st: Stored, k: nat, pad: seq<bool>): seq<bool>
    requires Fit(st) && k <= |st.sents|
  {
    StoredFrom(st, k) + (TrailerBits(st.total) + pad)
  }

  /** The state is that of a machine at the end of block k. */
  ghost predicate AtEnd(t: Saved, st: Stored, k: nat) {
    && Fit(st) && k < |st.sents| && Ready(t) && t.core.at == Output
    && var x := st.sents[k];
       && IsPerm(x.order, |x.block|) && t.out == LastColumn(x.block, x.order)
       && t.core.nblock == |x.block| && t.core.origPtr == x.body.origPtr && t.core.storedBlockCRC == st.sums[k]
       && t.core.blockSize100k == st.level
  }

  /** Block k is read, and no more. */
  lemma BlockNext(from: Saved, st: Stored, k: nat, pad: seq<bool>) returns (t: Saved)
    requires Fit(st) && k < |st.sents| && Ready(from) && from.core.at == BlkHdr(1)
             && from.core.blockSize100k == st.level
    ensures AtEnd(t, st, k) && Run(from, Ahead(st, k, pad)) == (t, Ahead(st, k + 1, pad))
  {
    hide Good, Run, Ready, Sane, BlockBits, TrailerBits, BlockSum, NewMaps, LastColumn, Acceptable, Complete,
      MtfDecode.Meaning, InUse,
      BlockFormat.WellFormed;
    StoredNext(st, k);
    var x, after := st.sents[k], Ahead(st, k + 1, pad);
    Assoc(BlockBits(st.sums[k], x.body), StoredFrom(st, k + 1), TrailerBits(st.total) + pad);
    GoodSizes(x, st.level);
    MapsSize(from);
    NewMapsBack(from.maps, x.body.used);
    GoodAccepted(x, st.level, NewMaps(from.maps, x.body.used));
    AcceptableForm(x.body, 100000 * st.level);
    t := BlockRun(from, st.sums[k], x.body, after);
    CompleteIs(t, x.body, x, st.level, from.maps);
    Stopped(t, after);
  }

  lemma GoodSizes(x: Sent, level: nat)
    requires Good(x, level)
    ensures |x.body.used| == 256
  {
    GoodFacts(x, level);
    DescribesFacts(x.body, x.block, x.order);
  }

  lemma MapsSize(s: Saved)
    requires Ready(s)
    ensures |s.maps| == 256
  {
    hide SaneCore;
  }

  lemma CompleteIs(t: Saved, d: Body, x: Sent, level: nat, was: seq<Byte>)
    requires Complete(t, d) && d == x.body && |was| == |d.used| == 256 && t.maps == NewMaps(was, d.used)
             && IsPerm(x.order, |x.block|)
    requires MtfDecode.WellFormed(InUse(d.used), d.syms)
    requires var m := MtfDecode.Meaning(InUse(d.used), d.syms);
             |m| == |x.block| && MtfDecode.Bytes(NewMaps(was, d.used), m) == LastColumn(x.block, x.order)
    ensures t.core.at == Output && t.out == LastColumn(x.block, x.order) && t.core.nblock == |x.block|
  {
    hide MtfDecode.Meaning, MtfDecode.WellFormed, InUse, NewMaps, LastColumn;
  }

  /** After the last block, the trailer. */
  lemma TrailerNext(from: Saved, st: Stored, pad: seq<bool>)
    requires Fit(st) && Ready(from) && from.core.at == BlkHdr(1)
    ensures var t := With(from, from.core.(storedCombinedCRC := st.total, at := Idle));
            Ready(t) && Run(from, Ahead(st, |st.sents|, pad)) == (t, pad)
  {
    hide Good, Run, Ready, TrailerBits, Combined;
    var u := st.total;
    assert [] + (TrailerBits(u) + pad) == TrailerBits(u) + pad;
    TrailerRun(from, u, pad);
  }

  // ---- one call of the decompressor, within the stream ----

  /** The machine, with what the caller still has, will do what the machine at the start of block k does. */
  ghost predicate OnWay(c: Config, later: seq<Byte>, from: Saved, st: Stored, k: nat, pad: seq<bool>) {
    && Fit(st) && k <= |st.sents| && Ready(from) && from.core.at == BlkHdr(1)
       && from.core.blockSize100k == st.level
    && Proper(c) && Run(c.saved, BitsAhead(c, later)) == Run(from, Ahead(st, k, pad))
  }

  lemma AheadJoined(c: Config, a: seq<Byte>, b: seq<Byte>)
    ensures BitsAhead(c, a + b) == BitsAhead(c, a) + BytesBits(b)
  {
    hide BytesBits, Live;
    BytesBitsConcat(a, b);
    Assoc(Live(c.buff, c.live), BytesBits(a), BytesBits(b));
  }

  lemma ProperReady(c: Config)
    requires Proper(c)
    ensures Ready(c.saved)
  {
    hide Sane;
  }

  /** A call keeps to the way. */
  lemma CallOn(c: Config, input: seq<Byte>, later: seq<Byte>, from: Saved, st: Stored, k: nat, pad: seq<bool>)
    requires OnWay(c, input + later, from, st, k, pad)
    ensures var (c', rest) := RunBytes(c, input); OnWay(c', rest + later, from, st, k, pad)
  {
    hide Proper, Ready, Run, RunBytes, BitsAhead, BytesBits, Ahead;
    var (c', rest) := RunBytes(c, input);
    RunProper(c, input);
    ProperReady(c);
    ProperReady(c');
    RunBytesIsRun(c, input);
    AheadJoined(c, input, later);
    AheadJoined(c', rest, later);
    RunParts(c.saved, BitsAhead(c, input), BytesBits(later));
  }

  lemma RunProper(c: Config, input: seq<Byte>)
    requires Proper(c)
    ensures Proper(RunBytes(c, input).0)
    ensures var (c', rest) := RunBytes(c, input);
            Terminal(c'.saved.core.at) || (rest == [] && c'.live < Want(c'.saved.core))
  {
    hide Proper;
  }

  /** With the whole stream at hand the machine does not stop for a lack of input. */
  lemma NotShort(c: Config, from: Saved, st: Stored, k: nat, pad: seq<bool>)
    requires OnWay(c, [], from, st, k, pad)
    ensures Terminal(c.saved.core.at) || Want(c.saved.core) <= c.live
  {
    hide Proper, Ready, Run, BitsAhead, Ahead, AtEnd, AllGood;
    ProperReady(c);
    TooFew(c);
    if !Terminal(c.saved.core.at) && c.live < Want(c.saved.core) {
      Starved(c.saved, BitsAhead(c, []));
      if k < |st.sents| {
        var t := BlockNext(from, st, k, pad);
        AtOutput(t, st, k);
      } else {
        TrailerNext(from, st, pad);
      }
    }
  }

  lemma Starved(s: Saved, bits: seq<bool>)
    requires Ready(s) && |bits| < Want(s.core)
    ensures Run(s, bits) == (s, bits)
  {
    hide Sane;
  }

  /** Where the machine stops, if it stops for another reason than a lack of input. */
  lemma StopsAtEnd(c: Config, later: seq<Byte>, from: Saved, st: Stored, k: nat, pad: seq<bool>)
    requires OnWay(c, later, from, st, k, pad) && Terminal(c.saved.core.at)
    ensures k < |st.sents| ==> c.saved.core.at == Output && AtEnd(c.saved, st, k)
    ensures k < |st.sents| ==> BitsAhead(c, later) == Ahead(st, k + 1, pad)
    ensures k == |st.sents| ==> c.saved.core.at == Idle && c.saved.core.storedCombinedCRC == st.total
  {
    hide Proper, Ready, Run, BitsAhead, Ahead, AtEnd, AllGood;
    ProperReady(c);
    Stopped(c.saved, BitsAhead(c, later));
    if k < |st.sents| {
      var t := BlockNext(from, st, k, pad);
      AtOutput(t, st, k);
    } else {
      TrailerNext(from, st, pad);
    }
  }

  lemma AtOutput(t: Saved, st: Stored, k: nat)
    requires AtEnd(t, st, k)
    ensures t.core.at == Output
  {
    hide Ready;
  }

  /** Output done, the machine sets out for the next block. */
  lemma SetOut(c: Config, later: seq<Byte>, st: Stored, k: nat, pad: seq<bool>)
    requires Fit(st) && k <= |st.sents| && Proper(c) && c.saved.core.at == BlkHdr(1)
             && c.saved.core.blockSize100k == st.level
    requires BitsAhead(c, later) == Ahead(st, k, pad)
    ensures OnWay(c, later, c.saved, st, k, pad)
  {
    hide Proper, Run, BitsAhead, Ahead, Sane;
    ProperReady(c);
  }

  // ---- the stream decompressor ----

  datatype Answer = Ok | StreamEnd | SequenceError | DataError

  /** What of a block has been put out, and its checksum so far. */
  ghost predicate Told(b: Block, blockOut: seq<Byte>, rest: seq<Byte>, crc: Word, produced: seq<Byte>,
      before: seq<Byte>)
  {
    blockOut + rest == Expand(b) && crc == Crc(CRC_START, blockOut) && produced == before + blockOut
  }

  lemma ToldNothing(b: Block, before: seq<Byte>)
    ensures Told(b, [], Expand(b), CRC_START, before, before)
  {
    hide Expand;
    assert before + [] == before;
  }

  lemma ToldMore(b: Block, blockOut: seq<Byte>, rest: seq<Byte>, crc: Word, produced: seq<Byte>, before: seq<Byte>,
      out: seq<Byte>, rest': seq<Byte>)
    requires Told(b, blockOut, rest, crc, produced, before) && rest == out + rest'
    ensures Told(b, blockOut + out, rest', Crc(crc, out), produced + out, before)
  {
    hide Expand, Crc;
    CrcConcat(CRC_START, blockOut, out);
    RunLength.Joined(blockOut, out, rest');
    RunLength.Joined(before, blockOut, out);
  }

  lemma ToldPrefix(b: Block, blockOut: seq<Byte>, rest: seq<Byte>, crc: Word, produced: seq<Byte>, before: seq<Byte>)
    requires Told(b, blockOut, rest, crc, produced, before)
    ensures produced <= before + Expand(b)
  {
    hide Expand, Crc;
    assert before + Expand(b) == produced + rest;
  }

  lemma ToldAll(b: Block, blockOut: seq<Byte>, crc: Word, produced: seq<Byte>, before: seq<Byte>)
    requires Told(b, blockOut, [], crc, produced, before)
    ensures Final(crc) == BlockSum(b) && produced == before + Expand(b)
  {
    hide Expand, Crc;
    assert blockOut + [] == blockOut;
  }

  class Inflow {
    const d: Decompressor
    var o: DState?
    var combined: Word  // calculatedCombinedCRC
    ghost const z: seq<Byte>
    ghost const st: Stored
    ghost const pad: seq<bool>
    ghost var delivered: nat  // how much of z has been given
    ghost var k: nat  // the block being read or put out
    ghost var from: Saved  // the machine at the start of block k
    ghost var produced: seq<Byte>
    ghost var blockOut: seq<Byte>  // what of block k has been put out

    ghost function Outlet(): set<object>
      reads this`o
    {
      if o == null then {} else {o, o.tt, o.ll16, o.ll4, o.cftab}
    }

    ghost function Repr(): set<object>
      reads this`o, d`tt, d`ll16
    {
      {this, d, d.table, d.table.mtfa, d.table.mtfbase, d.tt, d.ll16, d.unzftab, d.seqToUnseq} + Outlet()
    }

    /** Where the blocks before the k-th lead: their bytes, their checksums, all right. */
    ghost predicate Passed()
      reads this`k, this`combined
    {
      Fit(st) && k <= |st.sents| && RightSoFar(st, k) && combined == Combined(st.sents[..k])
    }

    ghost predicate Reading()
      reads this, d`saved, d`bsBuff, d`bsLive
    {
      Passed() && delivered <= |z| && OnWay(d.Now(), z[delivered..], from, st, k, pad)
        && produced == Original(st.sents[..k])
    }

    ghost predicate Writing()
      reads this, d`saved, d`bsBuff, d`bsLive, Outlet()
    {
      && Passed() && k < |st.sents| && delivered <= |z| && o != null && o.Valid() && o.b == st.sents[k].block
      && Told(o.b, blockOut, o.Rest(), o.calculatedBlockCRC, produced, Original(st.sents[..k]))
      && d.saved.core.storedBlockCRC == st.sums[k] && d.saved.core.blockSize100k == st.level
      && BitsAhead(d.Now(), z[delivered..]) == Ahead(st, k + 1, pad)
    }

    ghost predicate Done()
      reads this, d`saved
    {
      && Passed() && k == |st.sents| && produced == Original(st.sents)
      && d.saved.core.storedCombinedCRC == st.total && delivered <= |z|
    }

    ghost predicate Valid()
      reads Repr()
    {
      && d.Valid()
      && (match d.core.at
          case Output => Writing()
          case Idle => Done()
          case _ => !Terminal(d.core.at) && Reading())
    }

    /** z begins with a stream of these blocks, right or wrong. */
    constructor (small: bool, ghost z: seq<Byte>, ghost st: Stored)
      requires 1 <= st.level <= 9 && Fit(st) && StoredBits(st) <= BytesBits(z)
      ensures Valid() && fresh(Repr()) && this.z == z && this.st == st && delivered == 0 && produced == []
      ensures d.core.at != Idle && d.small == small
    {
      hide AllGood, StoredBits, OnWay, Decompressor.Valid, Sane, FirstCore, Proper, Asks, BytesBits, Writing, Done,
        Valid, Original, Combined, RightSoFar, Passed, Fit;
      d := new Decompressor(small);
      o, combined := null, 0;
      this.z, this.st, pad := z, st, BytesBits(z)[|StoredBits(st)|..];
      delivered, k, produced, blockOut := 0, 0, [], [];
      new;
      d.ProperNow();
      from := With(d.saved, d.saved.core.(blockSize100k := st.level, at := BlkHdr(1)));
      AtStart(d.Now(), z, st, pad);
      assert z[0..] == z;
      NoneYet();
      ReadingIs();
    }

    /** Fills the room given with what the block still has. */
    method PutOut(room: nat) returns (out: seq<Byte>, done: bool)
      requires Valid() && d.core.at == Output
      modifies Outlet(), this`produced, this`blockOut
      ensures Valid() && produced == old(produced) + out && |out| <= room && o == old(o) && o != null
      ensures done ==> o.Rest() == []
      ensures !done ==> |out| == room
    {
      hide Reading, Done, Decompressor.Valid, DState.Valid, DState.Rest, AllGood, Ahead, Original, Combined, BlockSum,
        Told, BitsAhead, Expand, Crc;
      ghost var rest0, crc0 := o.Rest(), o.calculatedBlockCRC;
      out := FillRoom(o, room);
      ToldMore(o.b, blockOut, rest0, crc0, produced, Original(st.sents[..k]), out, o.Rest());
      blockOut := blockOut + out;
      produced := produced + out;
      done := o.nblockUsed == o.saveNblock + 1 && o.stateOutLen == 0;
      if done { o.AllOut(); }
    }

    lemma WritingFacts()
      requires Valid() && d.core.at == Output
      ensures d.Valid() && Passed() && k < |st.sents| && delivered <= |z| && o != null && o.b == st.sents[k].block
      ensures Told(o.b, blockOut, o.Rest(), o.calculatedBlockCRC, produced, Original(st.sents[..k]))
      ensures d.core.storedBlockCRC == st.sums[k] && d.core.blockSize100k == st.level
      ensures BitsAhead(d.Now(), z[delivered..]) == Ahead(st, k + 1, pad)
    {
      hide Decompressor.Valid, DState.Valid, AllGood, Ahead, Original, Combined, DState.Rest, Told, Reading, Done;
      d.ProperNow();
    }

    lemma ReadingIs()
      requires d.Valid() && !Terminal(d.core.at) && Passed() && delivered <= |z|
      requires OnWay(d.Now(), z[delivered..], from, st, k, pad) && produced == Original(st.sents[..k])
      ensures Valid()
    {
      hide Decompressor.Valid, DState.Valid, AllGood, Original, Combined, Writing, Done, OnWay, RightSoFar;
    }

    lemma WhileReading()
      requires Valid() && !Terminal(d.core.at)
      ensures d.Valid() && Passed() && delivered <= |z| && OnWay(d.Now(), z[delivered..], from, st, k, pad)
      ensures produced == Original(st.sents[..k])
    {
      hide Decompressor.Valid, DState.Valid, AllGood, Original, Combined, Writing, Done, OnWay, RightSoFar;
    }

    lemma DoneIs()
      requires d.Valid() && d.core.at == Idle && Passed() && delivered <= |z| && k == |st.sents|
      requires produced == Original(st.sents[..k]) && d.saved.core.storedCombinedCRC == st.total
      ensures Valid()
    {
      hide Decompressor.Valid, DState.Valid, AllGood, Original, Combined, Writing, Reading, OnWay, RightSoFar;
      assert st.sents[..|st.sents|] == st.sents;
    }

    /** The end of a block: its checksum is turned over in place and compared; if right, it joins the others. */
    method EndBlock() returns (fine: bool)
      requires Valid() && d.core.at == Output && o != null && o.Rest() == []
      modifies this`combined, this`k, this`from, d`core, d`saved, o`calculatedBlockCRC
      ensures fine ==> Valid() && d.core.at == BlkHdr(1) && k == old(k) + 1
      ensures !fine ==> WrongBlock() && k == old(k) && d.core.at == Output
    {
      hide Decompressor.Valid, DState.Valid, AllGood, Ahead, Original, Combined, DState.Rest, Good, Chain, Told, OnWay,
        Valid, BlockSum, BitsAhead, Proper, Expand, Crc, StoredFrom, Final;
      WritingFacts();
      ToldAll(o.b, blockOut, o.calculatedBlockCRC, produced, Original(st.sents[..k]));
      OriginalNext(st, k);
      ghost var c, later := d.Now(), z[delivered..];
      o.calculatedBlockCRC := Final(o.calculatedBlockCRC);
      if o.calculatedBlockCRC != d.core.storedBlockCRC { return false; }
      combined := Chain(combined, o.calculatedBlockCRC);
      d.NextBlock();
      d.ProperNow();
      NextOnWay(c, d.Now(), later, st, k, pad);
      k, from := k + 1, d.saved;
      ReadingIs();
      fine := true;
    }

    /** Block k has been put out, and its checksum is not the one stored with it. */
    ghost predicate WrongBlock()
      reads this
    {
      Fit(st) && RightSoFar(st, k) && k < |st.sents| && st.sums[k] != BlockSum(st.sents[k].block)
        && produced == Original(st.sents[..k + 1]) && delivered <= |z|
    }

    /** All blocks have been put out, and the checksum over them is not the one stored. */
    ghost predicate WrongTotal()
      reads this
    {
      Fit(st) && RightSoFar(st, |st.sents|) && st.total != Combined(st.sents) && produced == Original(st.sents)
    }

    lemma NoneYet()
      requires Fit(st) && k == 0 && combined == 0
      ensures Passed() && Original(st.sents[..0]) == []
    {
      hide AllGood;
    }

    /** A block has been read: its output begins. */
    method Arrive()
      requires d.Valid() && d.core.at == Output && d.Holding() && Passed() && k < |st.sents| && delivered <= |z|
      requires AtEnd(d.saved, st, k) && BitsAhead(d.Now(), z[delivered..]) == Ahead(st, k + 1, pad)
      requires produced == Original(st.sents[..k])
      modifies this`o, this`blockOut, d.tt, d.ll16
      ensures Valid() && fresh(o) && o.tt == d.tt && o.ll16 == d.ll16 && fresh(o.ll4) && fresh(o.cftab)
    {
      hide Decompressor.Valid, DState.Valid, AllGood, Ahead, Expand, Told, Original, Combined, DState.Rest, Good, AtEnd,
        BitsAhead, Decompressor.Holding, BlockSum, LastColumn, Reading, Done, RightSoFar;
      ghost var x := st.sents[k];
      d.ProperNow();
      AtEndFacts(d.saved, st, k);
      o := BeginOutput(d, x, st.level);
      blockOut := [];
      ToldNothing(x.block, produced);
    }

    /** A piece of input goes to the machine; if a block ends, its output begins. */
    method TakeIn(input: seq<Byte>) returns (rest: seq<Byte>)
      requires Valid() && !Terminal(d.core.at) && input <= z[delivered..]
      modifies this`o, this`delivered, this`blockOut, d`bsBuff, d`bsLive, d`core, d`saved, d`tt, d`ll16
      modifies d.table, d.table.mtfa, d.table.mtfbase, d.tt, d.ll16, d.unzftab, d.seqToUnseq
      ensures Valid() && fresh(Repr() - old(Repr())) && k == old(k) && (d.core.at == Idle ==> k == |st.sents|)
      ensures |rest| <= |input| && rest == input[|input| - |rest|..] && delivered == old(delivered) + |input| - |rest|
      ensures d.core.at == Output || d.core.at == Idle || (rest == [] && delivered < |z|)
      ensures d.core.at == Output ==> k < |st.sents|
    {
      hide OnWay, Decompressor.Valid, DState.Valid, AllGood, Ahead, Expand, Told, Original, Combined, DState.Rest, Good,
        RunBytes, AtEnd, BitsAhead, Proper, Decompressor.Holding, BlockSum, LastColumn, RightSoFar, Valid, Reading,
        Writing, Done;
      WhileReading();
      ghost var c0, later := d.Now(), z[delivered + |input|..];
      assert z[delivered..] == input + later;
      rest := d.Decompress(input);
      d.ProperNow();
      CallOn(c0, input, later, from, st, k, pad);
      RunProper(c0, input);
      RestIs(c0, input);
      delivered := delivered + |input| - |rest|;
      assert z[delivered..] == rest + later;
      if Terminal(d.core.at) {
        StopsAtEnd(d.Now(), rest + later, from, st, k, pad);
        if d.core.at == Output {
          Arrive();
        } else {
          DoneIs();
        }
      } else {
        ReadingIs();
        if later == [] {
          assert rest + later == [];
          NotShort(d.Now(), from, st, k, pad);
        }
      }
    }

    lemma ProducedWriting()
      requires Valid() && d.core.at == Output
      ensures produced <= Original(st.sents) && delivered <= |z| && k <= |st.sents|
    {
      hide Valid, Decompressor.Valid, DState.Valid, AllGood, Ahead, Original, BlockBits, Combined, Good, BitsAhead,
        BlockSum, Expand, Crc, Chain;
      WritingFacts();
      OriginalNext(st, k);
      OriginalPrefix(st.sents, k + 1);
      ToldPrefix(o.b, blockOut, o.Rest(), o.calculatedBlockCRC, produced, Original(st.sents[..k]));
    }

    lemma ProducedReading()
      requires Valid() && d.core.at != Output
      ensures produced <= Original(st.sents) && delivered <= |z| && k <= |st.sents|
      ensures d.core.at == Idle ==>
                Passed() && k == |st.sents| && produced == Original(st.sents) && d.core.storedCombinedCRC == st.total
    {
      hide Decompressor.Valid, DState.Valid, AllGood, Original, Combined, OnWay, Writing;
      d.ProperNow();
      if d.core.at != Idle { OriginalPrefix(st.sents, k); }
    }

    /** What has been put out is what the compressed blocks began with. */
    lemma Produced()
      requires Valid()
      ensures produced <= Original(st.sents) && delivered <= |z| && k <= |st.sents|
    {
      hide Valid, Original;
      if d.core.at == Output { ProducedWriting(); } else { ProducedReading(); }
    }

    /** The output side: when the block is done and its checksum right, the machine sets out for the next. */
    method PutSome(room: nat) returns (out: seq<Byte>, done: bool, fine: bool)
      requires Valid() && d.core.at == Output
      modifies Outlet(), this`produced, this`blockOut, this`combined, this`k, this`from, d`core, d`saved
      ensures produced == old(produced) + out && |out| <= room && o == old(o)
      ensures if !done then Valid() && fine && d.core.at == Output && |out| == room && k == old(k)
              else if fine then Valid() && d.core.at == BlkHdr(1) && k == old(k) + 1
              else WrongBlock() && d.core.at == Output
    {
      hide Valid, Decompressor.Valid, DState.Valid, DState.Rest, WrongBlock;
      out, done := PutOut(room);
      fine := true;
      if done { fine := EndBlock(); }
    }

    lemma NotStopped()
      requires Valid() && d.core.at != Output && d.core.at != Idle
      ensures !Terminal(d.core.at)
    {
      hide Decompressor.Valid, DState.Valid, Reading;
    }

    /** Once round: the rest of a block goes out, the next is read. */
    method Round(input: seq<Byte>, room: nat) returns (fine: bool, stop: bool, rest: seq<Byte>, out: seq<Byte>)
      requires Valid() && d.core.at != Idle && delivered <= |z| && input <= z[delivered..]
      modifies Repr()
      ensures (forall x: object :: x in Repr() && x !in old(Repr()) ==> fresh(x)) && delivered <= |z|
      ensures |rest| <= |input| && rest == input[|input| - |rest|..] && delivered == old(delivered) + |input| - |rest|
      ensures produced == old(produced) + out && |out| <= room
      ensures if fine then Valid() else WrongBlock() && d.core.at == Output
      ensures fine && stop ==> d.core.at == Idle || |out| == room || delivered < |z|
      ensures fine && stop ==> d.core.at == Idle || |out| == room || rest == []
      ensures fine && !stop ==> d.core.at == Output && (k > old(k) || (k == old(k) && old(d.core.at) != Output))
    {
      hide Valid, Decompressor.Valid, DState.Valid, DState.Rest, Original, WrongBlock;
      rest, out, stop, fine := input, [], true, true;
      assert produced + [] == produced;
      if d.core.at == Output {
        var done;
        out, done, fine := PutSome(room);
        if !done || !fine { return; }
      }
      NotStopped();
      rest := TakeIn(rest);
      Produced();
      stop := d.core.at != Output;
    }

    /** BZ2_bzDecompress: one call, with the bytes and the room it is given. What is put out is what was compressed;
        it is refused, when all of a block is out, for a wrong checksum and for nothing else. */
    method BzDecompress(input: seq<Byte>, availOut: nat) returns (answer: Answer, rest: seq<Byte>, out: seq<Byte>)
      requires Valid() && delivered <= |z| && input <= z[delivered..]
      modifies Repr()
      ensures answer != DataError ==> Valid()
      ensures (forall x: object :: x in Repr() && x !in old(Repr()) ==> fresh(x)) && delivered <= |z|
      ensures |rest| <= |input| && rest == input[|input| - |rest|..] && delivered == old(delivered) + |input| - |rest|
      ensures produced == old(produced) + out && |out| <= availOut && produced <= Original(st.sents)
      ensures answer == SequenceError <==> old(d.core.at) == Idle
      ensures answer == DataError ==> Fit(st) && !Right(st) && (WrongBlock() || WrongTotal())
      ensures answer == StreamEnd ==> d.core.at == Idle && Fit(st) && Right(st) && produced == Original(st.sents)
      ensures answer == Ok ==> d.core.at != Idle && (|out| == availOut || (rest == [] && delivered < |z|))
    {
      hide Valid, Decompressor.Valid, DState.Valid, DState.Rest, Original, Outlet, WrongBlock, WrongTotal, Right;
      rest, out := input, [];
      assert produced + [] == produced;
      Produced();
      if d.core.at == Idle { return SequenceError, rest, out; }
      while true
        invariant Valid() && (forall x: object :: x in Repr() && x !in old(Repr()) ==> fresh(x)) && d.core.at != Idle
                  && k <= |st.sents|
        invariant |rest| <= |input| && rest == input[|input| - |rest|..]
                  && delivered == old(delivered) + |input| - |rest|
        invariant delivered <= |z| && rest <= z[delivered..]
        invariant produced == old(produced) + out && |out| <= availOut
        decreases |st.sents| - k, if d.core.at == Output then 0 else 1
      {
        ghost var parts := Repr();
        var fine, stop, more;
        fine, stop, rest, more := Round(rest, availOut - |out|);
        assert forall x: object :: x in Repr() && x !in parts ==> fresh(x);
        RunLength.Joined(old(produced), out, more);
        out := out + more;
        if !fine {
          BlockIsWrong();
          return DataError, rest, out;
        }
        Produced();
        if stop {
          if d.core.at != Idle { return Ok, rest, out; }
          AtTrailer();
          return if combined != d.core.storedCombinedCRC then DataError else StreamEnd, rest, out;
        }
      }
    }

    lemma BlockIsWrong()
      requires WrongBlock()
      ensures Fit(st) && !Right(st) && produced <= Original(st.sents)
    {
      hide BlockSum, Original, Combined, AllGood;
      OriginalPrefix(st.sents, k + 1);
    }

    /** At the end the comparison of the two checksums tells right from wrong. */
    lemma AtTrailer()
      requires Valid() && d.core.at == Idle
      ensures Fit(st) && produced == Original(st.sents)
      ensures if combined == d.core.storedCombinedCRC then Right(st) else !Right(st) && WrongTotal()
    {
      hide Valid, BlockSum, Original, Combined, AllGood;
      ProducedReading();
      assert st.sents[..|st.sents|] == st.sents;
    }
  }

  lemma OriginalNext(st: Stored, k: nat)
    requires Fit(st) && k < |st.sents|
    ensures Original(st.sents[..k + 1]) == Original(st.sents[..k]) + Expand(st.sents[k].block)
  {
    hide Good, Expand;
    assert st.sents[..k + 1][..k] == st.sents[..k];
  }

  /** From the end of block k's output the machine is on its way to the next. */
  lemma NextOnWay(c: Config, c': Config, later: seq<Byte>, st: Stored, k: nat, pad: seq<bool>)
    requires Fit(st) && k < |st.sents| && BitsAhead(c, later) == Ahead(st, k + 1, pad)
    requires Proper(c') && c'.buff == c.buff && c'.live == c.live && c'.saved.core.at == BlkHdr(1)
             && c'.saved.core.blockSize100k == st.level
    ensures OnWay(c', later, c'.saved, st, k + 1, pad)
    ensures Combined(st.sents[..k + 1]) == Chain(Combined(st.sents[..k]), BlockSum(st.sents[k].block))
    ensures Original(st.sents[..k + 1]) == Original(st.sents[..k]) + Expand(st.sents[k].block)
  {
    hide Proper, BitsAhead, Ahead, Good, AllGood, OnWay, Chain, BlockSum, Expand, StoredFrom, Combined, Original;
    SentNext(st.sents, st.level, k);
    AheadSame(c, c', later);
    SetOut(c', later, st, k + 1, pad);
  }

  lemma AheadSame(c: Config, c': Config, later: seq<Byte>)
    requires c'.buff == c.buff && c'.live == c.live
    ensures BitsAhead(c', later) == BitsAhead(c, later)
  {
  }

  lemma AtEndFacts(t: Saved, st: Stored, k: nat)
    requires AtEnd(t, st, k)
    ensures var x := st.sents[k];
            Good(x, st.level) && IsPerm(x.order, |x.block|) && t.out == LastColumn(x.block, x.order)
            && t.core.nblock == |x.block| && t.core.origPtr == x.body.origPtr
    ensures t.core.storedBlockCRC == st.sums[k] && t.core.blockSize100k == st.level
  {
    hide Good, LastColumn, Ready, BlockSum;
  }

  /** What a call leaves of its input is the end of it. */
  lemma {:induction false} RestIs(c: Config, input: seq<Byte>)
    requires Proper(c)
    ensures var rest := RunBytes(c, input).1; |rest| <= |input| && rest == input[|input| - |rest|..]
    decreases |input|, c.live
  {
    hide Proper, Consume, Pull;
    if Terminal(c.saved.core.at) {
    } else if Want(c.saved.core) <= c.live {
      ConsumeProper(c);
      RestIs(Consume(c), input);
    } else if input != [] {
      WantSmall(c);
      PullProper(c, input[0]);
      RestIs(Pull(c, input[0]), input[1..]);
    }
  }

  lemma AtStart(c: Config, z: seq<Byte>, st: Stored, pad: seq<bool>)
    requires 1 <= st.level <= 9 && Fit(st) && StoredBits(st) <= BytesBits(z)
             && pad == BytesBits(z)[|StoredBits(st)|..]
    requires Proper(c) && c.live == 0 && c.saved.core.at == Magic(1)
    ensures OnWay(c, z, With(c.saved, c.saved.core.(blockSize100k := st.level, at := BlkHdr(1))), st, 0, pad)
  {
    hide Ready, Run, HeaderBits, TrailerBits, StoredFrom, BytesBits, Proper, AllGood;
    ProperReady(c);
    HeaderRun(c.saved, st.level, Ahead(st, 0, pad));
    var h, b, t := HeaderBits(st.level), StoredFrom(st, 0), TrailerBits(st.total);
    assert BytesBits(z) == h + b + t + pad;
    Assoc(h + b, t, pad);
    Assoc(h, b, t + pad);
    NoneLive(c, z);
  }

  lemma NoneLive(c: Config, z: seq<Byte>)
    requires c.live == 0
    ensures BitsAhead(c, z) == BytesBits(z)
  {
    hide BytesBits;
    assert [] + BytesBits(z) == BytesBits(z);
  }
}
