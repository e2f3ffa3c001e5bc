/** The compressor's input side: bytes are gathered into runs, runs into blocks, and
    finished blocks are handed out while more input is taken. */
module BlockBuilder {
  import opened Bits
  import opened Sequences
  import opened BlockCrc
  import opened RunLength
  import opened BitStream
  import opened BlockParts
  import opened MtfEncode
  import opened StreamFormat
  import opened StreamSize
  import opened StreamWriter
  import MainCompare

  datatype Mode = Idle | Running | Flushing | Finishing
  datatype Phase = Input | Output
  datatype Action = RUN | FLUSH | FINISH | Unknown
  datatype Answer = RunOk | FlushOk | FinishOk | StreamEnd | SequenceError | ParamError

  /** The block so far and the run in progress, against the bytes taken in. */
  ghost predicate Gathered(blk: seq<Byte>, used: seq<bool>, crc: Word, ch: int, len: int, sealed: bool,
      before: seq<Byte>, consumed: seq<Byte>)
  {
    var u := ReadAll(EMPTY, blk);
    && |used| == 256 && u.len < 4
    && (if ch == 256 then len == 0 else 0 <= ch < 256 && 1 <= len <= 255)
    && (ch < 256 ==> u.len == 0 || u.ch != ch)
    && (ch == 256 && !sealed ==> blk == [])
    && (sealed ==> ch == 256)
    && (forall c: Byte :: used[c] <==> c in blk)
    && crc == Crc(CRC_START, u.out)
    && before + u.out + (if ch < 256 then Rep(ch, len) else []) == consumed
  }

  lemma GatheredStart(used: seq<bool>, ch: int, len: int, before: seq<Byte>, consumed: seq<Byte>)
    requires |used| == 256 && (forall c: Byte :: !used[c])
             && (if ch == 256 then len == 0 else 0 <= ch < 256 && 1 <= len <= 255)
    requires before + (if ch < 256 then Rep(ch, len) else []) == consumed
    ensures Gathered([], used, CRC_START, ch, len, false, before, consumed)
  {
    assert before + [] == before;
  }

  /** The bytes of a block with one more stored run are those of both. */
  ghost predicate UsedNow(used: seq<bool>, used0: seq<bool>, ch: Byte, len: int) {
    |used| == |used0| == 256 && forall c: Byte :: used[c] <==> used0[c] || c == ch || (len >= 4 && c == len - 4)
  }

  lemma MarkedBoth(used0: seq<bool>, used: seq<bool>, ch: Byte, len: int)
    requires |used0| == 256 && 1 <= len <= 255
    requires used == (if len >= 4 then used0[ch := true][len - 4 := true] else used0[ch := true])
    ensures UsedNow(used, used0, ch, len)
  {
  }

  lemma UsedPair(blk: seq<Byte>, used0: seq<bool>, used: seq<bool>, ch: Byte, len: int)
    requires 1 <= len <= 255 && UsedNow(used, used0, ch, len) && forall c: Byte :: used0[c] <==> c in blk
    ensures forall c: Byte :: used[c] <==> c in blk + PairBytes(ch, len)
  {
    var p := PairBytes(ch, len);
    assert p[0] == ch;
    if len >= 4 { assert p[4] == len - 4; }
    forall c: Byte ensures c in p <==> c == ch || (len >= 4 && c == len - 4) { }
  }

  /** A finished run goes into the block: nothing is lost, and the checksum follows. */
  lemma GatheredPair(blk: seq<Byte>, used: seq<bool>, crc: Word, ch: int, len: int, before: seq<Byte>,
      consumed: seq<Byte>, used': seq<bool>, sealed: bool)
    requires Gathered(blk, used, crc, ch, len, false, before, consumed) && ch < 256 && UsedNow(used', used, ch, len)
    ensures var crc', blk' := Crc(crc, Rep(ch, len)), blk + PairBytes(ch, len);
            sealed ==> Gathered(blk', used', crc', 256, 0, true, before, consumed)
    ensures var crc', blk', u := Crc(crc, Rep(ch, len)), blk + PairBytes(ch, len),
            ReadAll(EMPTY, blk + PairBytes(ch, len));
            u.len < 4 && (len < 255 ==> u.len == 0 || u.ch == ch) && (len == 255 ==> u.len == 0) &&
            (forall c: Byte :: used'[c] <==> c in blk') && crc' == Crc(CRC_START, u.out) && before + u.out == consumed
  {
    hide ReadAll, Update;
    var u := ReadAll(EMPTY, blk);
    ReadConcat(EMPTY, blk, PairBytes(ch, len));
    ReadPair(u, ch, len);
    UsedPair(blk, used, used', ch, len);
    CrcConcat(CRC_START, u.out, Rep(ch, len));
    Joined(before, u.out, Rep(ch, len));
    var u' := ReadAll(EMPTY, blk + PairBytes(ch, len));
    assert before + u'.out + [] == before + u'.out;
  }

  lemma GatheredNext(blk: seq<Byte>, used: seq<bool>, crc: Word, before: seq<Byte>, consumed: seq<Byte>, c: Byte)
    requires var u := ReadAll(EMPTY, blk);
             |used| == 256 && u.len < 4 && (u.len == 0 || u.ch != c) && (forall c: Byte :: used[c] <==> c in blk) &&
             crc == Crc(CRC_START, u.out) && before + u.out == consumed
    ensures Gathered(blk, used, crc, c, 1, false, before, consumed + [c])
  {
    hide ReadAll, Crc;
    assert Rep(c, 1) == [c];
  }

  lemma GatheredLonger(blk: seq<Byte>, used: seq<bool>, crc: Word, ch: int, len: int, before: seq<Byte>,
      consumed: seq<Byte>)
    requires Gathered(blk, used, crc, ch, len, false, before, consumed) && ch < 256 && len < 255
    ensures Gathered(blk, used, crc, ch, len + 1, false, before, consumed + [ch])
  {
    hide ReadAll, Crc;
    assert Rep(ch, len + 1) == Rep(ch, len) + [ch];
    Joined(before + ReadAll(EMPTY, blk).out, Rep(ch, len), [ch]);
  }

  lemma GatheredFacts(blk: seq<Byte>, used: seq<bool>, crc: Word, ch: int, len: int, sealed: bool, before: seq<Byte>,
      consumed: seq<Byte>)
    requires Gathered(blk, used, crc, ch, len, sealed, before, consumed)
    ensures |used| == 256 && (if ch == 256 then len == 0 else 0 <= ch < 256 && 1 <= len <= 255)
            && (sealed ==> ch == 256)
    ensures ch == 256 && !sealed ==> blk == []
    ensures ch < 256 ==> var u := ReadAll(EMPTY, blk); u.len == 0 || u.ch != ch
  {
    hide ReadAll, Crc;
  }

  /** A block taken as it is: it is whole, and stands for what was taken in but the pending run. */
  lemma GatheredWhole(blk: seq<Byte>, used: seq<bool>, crc: Word, ch: int, len: int, sealed: bool, before: seq<Byte>,
      consumed: seq<Byte>)
    requires Gathered(blk, used, crc, ch, len, sealed, before, consumed)
    ensures Whole(blk) && before + Expand(blk) + (if ch < 256 then Rep(ch, len) else []) == consumed
            && crc == Crc(CRC_START, Expand(blk))
  {
    hide Crc, Update;
    ExpandIsRead(EMPTY, blk);
    assert [] + Expand(blk) == Expand(blk);
  }

  /** Everything handed out or ready to be, and the bits left over, are the stream so far. */
  ghost predicate Accounted(ready: seq<Byte>, left: seq<bool>, sofar: seq<bool>) {
    BytesBits(ready) + left == sofar
  }

  class EState {
    const nblockMAX: int
    const block: array<Byte>
    const inUse: array<bool>
    const back: BackEnd
    var stateInCh: int
    var stateInLen: int
    var nblock: int
    var blockCRC: Word
    var mode: Mode
    var state: Phase
    var availInExpect: nat
    var stateOutPos: nat

    ghost var consumed: seq<Byte>
    ghost var handed: seq<Byte>
    ghost var sealed: bool

    /** The current block and run account for every byte taken in. */
    ghost predicate Filling()
      reads this, block, inUse, back
    {
      && 0 <= nblock <= block.Length && inUse.Length == 256
      && Gathered(block[..nblock], inUse[..], blockCRC, stateInCh, stateInLen, sealed, Original(back.sents), consumed)
    }

    /** The bytes of the current block that are ready and not handed out yet. */
    function Zbits(): seq<Byte>
      reads back.w
    {
      back.w.zbits
    }

    /** The bytes, with the bits left over in the back end, are its work so far; or they are the whole stream. */
    ghost predicate Tells(ready: seq<Byte>)
      reads back, back.w
      requires back.Valid()
    {
      if back.ended then Padded(StreamBits(back.sents, back.level), ready)
                         else Accounted(ready, back.w.Left(), back.SoFar())
    }

    /** The back end's work is in step with what has been handed out. */
    ghost predicate Sending()
      reads this, back, back.w
    {
      back.Valid() && stateOutPos <= |Zbits()| && Tells(handed + Zbits()[stateOutPos..])
    }

    ghost predicate Sizes()
      reads this
    {
      && back.level <= 9 && nblockMAX == 100000 * back.level - 19 && block.Length == nblockMAX + 53
         && inUse.Length == 256
      && block as object != inUse && 1 <= back.level
    }

    ghost predicate Valid()
      reads this, block, inUse, back, back.w
    {
      && Sizes() && Sending() && 0 <= nblock <= nblockMAX + 9
      && (if state == Input then back.begun <==> back.blockNo > 1 else back.begun)
      && match state
         case Input => !sealed && nblock < nblockMAX && Filling() && Zbits() == [] && !back.ended
         case Output => (if stateInCh == 256 then stateInLen == 0 else 0 <= stateInCh < 256 && 1 <= stateInLen <= 255)
                        && Original(back.sents) + (if stateInCh < 256 then Rep(stateInCh, stateInLen) else [])
                           == consumed
                        && (back.ended ==> EmptyRL() && (mode == Finishing || mode == Idle) && availInExpect == 0)
                        && (EmptyRL() && !back.ended ==> mode == Flushing)
    }

    /** Between calls: a stream that is complete and not all handed out. */
    ghost predicate Steady()
      reads this, block, inUse, back, back.w
    {
      Valid() && (back.ended && mode != Idle ==> stateOutPos < |Zbits()|)
    }

    /** Nothing is pending in the run. */
    predicate EmptyRL()
      reads this
    {
      !(stateInCh < 256 && stateInLen > 0)
    }

    /** BZ2_bzCompressInit. */
    constructor (blockSize100k: int, workFactor: int)
      requires 1 <= blockSize100k <= 9
      ensures Steady() && fresh(block) && fresh(inUse) && fresh(back) && fresh(back.w) && consumed == [] && handed == []
              && mode == Running
      ensures back.level == blockSize100k && back.workFactor == workFactor
    {
      nblockMAX := 100000 * blockSize100k - 19;
      block := new Byte[100000 * blockSize100k + 34];
      inUse := new bool[256](_ => false);
      var b := new BackEnd(blockSize100k, workFactor);
      back := b;
      stateInCh, stateInLen, nblock, blockCRC := 256, 0, 0, CRC_START;
      mode, state, availInExpect, stateOutPos := Running, Input, 0, 0;
      consumed, handed, sealed := [], [], false;
      new;
      assert block[..0] == [];
      GatheredStart(inUse[..], 256, 0, [], []);
      NothingSent();
    }

    /** Appends the pending run to the block. */
    method AddPairToBlock()
      requires 0 <= nblock && nblock + 5 <= block.Length && inUse.Length == 256 && 0 <= stateInCh < 256
               && 1 <= stateInLen <= 255
      requires block as object != inUse
      modifies this`nblock, this`blockCRC, block, inUse
      ensures nblock == old(nblock) + |PairBytes(stateInCh, stateInLen)| && nblock <= block.Length
      ensures block[..nblock] == old(block[..nblock]) + PairBytes(stateInCh, stateInLen)
      ensures blockCRC == Crc(old(blockCRC), Rep(stateInCh, stateInLen))
      ensures UsedNow(inUse[..], old(inUse[..]), stateInCh, stateInLen)
    {
      hide Crc, Update;
      var ch: Byte := stateInCh;
      UpdateRun(ch, stateInLen);
      ghost var used0 := inUse[..];
      inUse[stateInCh] := true;
      if stateInLen >= 4 { inUse[stateInLen - 4] := true; }
      MarkedBoth(used0, inUse[..], ch, stateInLen);
      StoreRun(ch);
    }

    /** The checksum takes in a run. */
    method UpdateRun(ch: Byte, len: int)
      requires 1 <= len <= 255
      modifies this`blockCRC
      ensures blockCRC == Crc(old(blockCRC), Rep(ch, len))
    {
      hide Crc, Update;
      ghost var crc0 := blockCRC;
      CrcNone(crc0);
      for i := 0 to len
        invariant blockCRC == Crc(crc0, Rep(ch, i))
      {
        assert Rep(ch, i + 1) == Rep(ch, i) + [ch];
        CrcConcat(crc0, Rep(ch, i), [ch]);
        CrcOne(Crc(crc0, Rep(ch, i)), ch);
        blockCRC := Update(blockCRC, ch);
      }
    }

    /** One to three bytes as they are, more as four and a count. */
    method StoreRun(ch: Byte)
      requires 0 <= nblock && nblock + 5 <= block.Length && 1 <= stateInLen <= 255 && block as object != inUse
      modifies this`nblock, block
      ensures nblock == old(nblock) + |PairBytes(ch, stateInLen)| && nblock <= block.Length
      ensures block[..nblock] == old(block[..nblock]) + PairBytes(ch, stateInLen)
    {
      ghost var b0 := block[..nblock];
      if stateInLen == 1 {
        Append(ch);
        assert block[..nblock] == b0 + [ch];
      } else if stateInLen == 2 {
        Append(ch);
        Append(ch);
        assert block[..nblock] == b0 + [ch, ch];
      } else if stateInLen == 3 {
        Append(ch);
        Append(ch);
        Append(ch);
        assert block[..nblock] == b0 + [ch, ch, ch];
      } else {
        Append(ch);
        Append(ch);
        Append(ch);
        Append(ch);
        Append(stateInLen - 4);
        assert block[..nblock] == b0 + [ch, ch, ch, ch, stateInLen - 4];
      }
      assert stateInLen <= 3 ==>
               Rep(ch, stateInLen) == if stateInLen == 1 then [ch]
                                                              else if stateInLen == 2 then [ch, ch] else [ch, ch, ch];
    }

    method Append(c: Byte)
      requires 0 <= nblock < block.Length && block as object != inUse
      modifies this`nblock, block
      ensures nblock == old(nblock) + 1 && nblock <= block.Length && block[..nblock] == old(block[..nblock]) + [c]
    {
      block[nblock] := c;
      nblock := nblock + 1;
    }

    /** ADD_CHAR_TO_BLOCK. */
    method AddChar(c: Byte)
      requires Filling() && !sealed && nblock + 5 <= block.Length && block as object != inUse
      modifies this`stateInCh, this`stateInLen, this`nblock, this`blockCRC, this`consumed, block, inUse
      ensures Filling() && consumed == old(consumed) + [c] && old(nblock) <= nblock <= old(nblock) + 5
              && stateInCh < 256
    {
      hide Gathered, ReadAll, Crc, Update, Original;
      ghost var blk, used, crc, before := block[..nblock], inUse[..], blockCRC, Original(back.sents);
      GatheredFacts(blk, used, crc, stateInCh, stateInLen, sealed, before, consumed);
      if c != stateInCh && stateInLen == 1 {
        // the common case: a single byte, then another
        var ch: Byte := stateInCh;
        blockCRC := Update(blockCRC, ch);
        inUse[stateInCh] := true;
        Append(ch);
        CrcOne(crc, ch);
        assert Rep(ch, 1) == [ch];
        GatheredPair(blk, used, crc, ch, 1, before, consumed, inUse[..], false);
        stateInCh := c;
        GatheredNext(block[..nblock], inUse[..], blockCRC, before, consumed, c);
      } else if c != stateInCh || stateInLen == 255 {
        if stateInCh < 256 {
          AddPairToBlock();
          GatheredPair(blk, used, crc, stateInCh, stateInLen, before, consumed, inUse[..], false);
        } else {
          GatheredEmpty(used, crc, before, consumed);
        }
        stateInCh := c;
        stateInLen := 1;
        GatheredNext(block[..nblock], inUse[..], blockCRC, before, consumed, c);
      } else {
        GatheredLonger(blk, used, crc, stateInCh, stateInLen, before, consumed);
        stateInLen := stateInLen + 1;
      }
      consumed := consumed + [c];
    }

    /** flush_RL: the pending run is forced into the block. */
    method FlushRL()
      requires Filling() && !sealed && nblock + 5 <= block.Length && block as object != inUse
      modifies this`stateInCh, this`stateInLen, this`nblock, this`blockCRC, this`sealed, block, inUse
      ensures Filling() && sealed && stateInCh == 256 && stateInLen == 0 && old(nblock) <= nblock <= old(nblock) + 5
    {
      hide Gathered, ReadAll, Crc, Update, Original;
      ghost var blk, used, crc, before := block[..nblock], inUse[..], blockCRC, Original(back.sents);
      GatheredFacts(blk, used, crc, stateInCh, stateInLen, sealed, before, consumed);
      if stateInCh < 256 {
        AddPairToBlock();
        GatheredPair(blk, used, crc, stateInCh, stateInLen, before, consumed, inUse[..], true);
      } else {
        GatheredSeal(blk, used, crc, before, consumed);
      }
      stateInCh, stateInLen, sealed := 256, 0, true;
    }

    /** copy_input_until_stop: until the block is full, the input is used up, or what was
        announced for a flush has been taken. */
    method CopyInput(input: seq<Byte>) returns (used: nat)
      requires Valid() && state == Input && (mode != Running ==> availInExpect == |input|)
      modifies this`stateInCh, this`stateInLen, this`nblock, this`blockCRC, this`consumed, this`availInExpect, block,
               inUse
      ensures Filling() && used <= |input| && consumed == old(consumed) + input[..used] && 0 <= nblock <= nblockMAX + 4
      ensures used < |input| ==> nblock >= nblockMAX
      ensures |input| > 0 ==> used > 0
      ensures if used == 0 then nblock < nblockMAX else stateInCh < 256
      ensures mode != Running ==> availInExpect == |input| - used
      ensures mode == Running ==> availInExpect == old(availInExpect)
    {
      hide Gathered, Original, BackEnd.Valid, AllGood, Tells;
      used := 0;
      assert input[..0] == [];
      while true
        invariant used <= |input| && Filling() && consumed == old(consumed) + input[..used] && !sealed
        invariant 0 <= nblock <= nblockMAX + 4 && if used == 0 then nblock < nblockMAX else stateInCh < 256
        invariant mode != Running ==> availInExpect == |input| - used
        invariant mode == Running ==> availInExpect == old(availInExpect)
        decreases |input| - used
      {
        if nblock >= nblockMAX { break; }
        if used == |input| { break; }
        if mode != Running && availInExpect == 0 { break; }
        AddChar(input[used]);
        assert input[..used + 1] == input[..used] + [input[used]];
        used := used + 1;
        if mode != Running { availInExpect := availInExpect - 1; }
      }
    }

    /** A block ready for the back end, everything compressed before handed out. */
    ghost predicate Ready()
      reads this, block, inUse, back, back.w
    {
      && Sizes() && Filling() && Sending() && !back.ended && Zbits() == [] && (back.begun <==> back.blockNo > 1)
         && 0 <= nblock <= nblockMAX + 9
    }

    /** The back end compresses the block. */
    method HandOver(isLast: bool)
      requires Ready()
      modifies back`sents, back`combinedCRC, back`begun, back`ended, back.w, block
      ensures back.Valid() && back.begun && back.ended == isLast
      ensures if stateInCh == 256 then stateInLen == 0 else 0 <= stateInCh < 256 && 1 <= stateInLen <= 255
      ensures Original(back.sents) + (if stateInCh < 256 then Rep(stateInCh, stateInLen) else []) == consumed
      ensures old(back.Valid() && !back.ended) && BytesBits(handed) + old(back.w.Written()) == old(back.SoFar())
      ensures !isLast ==> Grown(old(back.w.Written()), old(back.SoFar()), back.w.Written(), back.SoFar())
      ensures isLast ==> exists w1 :: Grown(old(back.w.Written()), old(back.SoFar()), w1, back.SoFar())
                                      && Closed(w1, Combined(back.sents), back.w.zbits)
      ensures isLast ==> Zbits() != []
    {
      hide Gathered, Expand, Whole, Original, BytesBits, Buffered, AllGood, Padded, StreamBits, Grown, Closed,
        Accounted, BackEnd.SoFar, Crc,
        Writer.Left, AllUsed;
      ghost var blk := block[..nblock];
      assert Zbits()[stateOutPos..] == [];
      GatheredWhole(blk, inUse[..], blockCRC, stateInCh, stateInLen, sealed, Original(back.sents), consumed);
      GatheredFacts(blk, inUse[..], blockCRC, stateInCh, stateInLen, sealed, Original(back.sents), consumed);
      GatheredUsed(blk, inUse[..], blockCRC, stateInCh, stateInLen, sealed, Original(back.sents), consumed);
      BeforeBlock(handed, back.w.Left(), back.SoFar());
      back.CompressBlock(block, nblock, inUse, blockCRC, isLast);
    }

    /** The block becomes compressed bytes to hand out. */
    method CompressBlock(isLast: bool)
      requires Ready()
      modifies this`stateOutPos, this`state, back`sents, back`combinedCRC, back`begun, back`ended, back.w, block
      ensures Sizes() && Sending() && back.begun && back.ended == isLast && state == Output && stateOutPos == 0
      ensures if stateInCh == 256 then stateInLen == 0 else 0 <= stateInCh < 256 && 1 <= stateInLen <= 255
      ensures Original(back.sents) + (if stateInCh < 256 then Rep(stateInCh, stateInLen) else []) == consumed
      ensures isLast ==> Zbits() != []
    {
      hide Gathered, Expand, Whole, Original, BytesBits, Buffered, AllGood, Padded, StreamBits, Grown, Closed,
        Accounted, BackEnd.SoFar, Crc,
        Writer.Left, Writer.Written, AllUsed, Filling, BackEnd.Valid;
      BackReady();
      ghost var w0, s0 := back.w.Written(), back.SoFar();
      HandOver(isLast);
      stateOutPos := 0;
      state := Output;
      TellsNow(isLast, w0, s0);
    }

    lemma BackReady()
      requires Ready()
      ensures back.w.Valid() && AllGood(back.sents, back.level)
    {
      hide Filling, AllGood, Buffered, Tells;
    }

    lemma TellsNow(isLast: bool, w0: seq<bool>, s0: seq<bool>)
      requires back.Valid() && back.begun && back.ended == isLast && BytesBits(handed) + w0 == s0
      requires !isLast ==> Grown(w0, s0, back.w.Written(), back.SoFar())
      requires isLast ==> exists w1 :: Grown(w0, s0, w1, back.SoFar()) && Closed(w1, Combined(back.sents), back.w.zbits)
      ensures Tells(handed + Zbits()[0..])
    {
      hide BytesBits, Buffered, AllGood, Padded, StreamBits, Grown, Closed, Accounted, BackEnd.SoFar, Writer.Left;
      if isLast {
        var w1 :| Grown(w0, s0, w1, back.SoFar()) && Closed(w1, Combined(back.sents), back.w.zbits);
        SoFarIs();
        AfterLast(handed, w0, s0, w1, back.sents, back.level, back.w.zbits);
      } else {
        AfterBlock(handed, w0, s0, back.w.zbits, back.w.Left(), back.SoFar());
      }
    }

    lemma SoFarIs()
      requires AllGood(back.sents, back.level) && back.begun
      ensures back.SoFar() == HeaderBits(back.level) + SentBits(back.sents, back.level)
    {
    }

    method ClearInUse()
      requires inUse.Length == 256
      modifies inUse
      ensures forall c: Byte :: !inUse[..][c]
    {
      for i := 0 to 256
        invariant forall k :: 0 <= k < i ==> !inUse[k]
      {
        inUse[i] := false;
      }
    }

    method PrepareNewBlock()
      requires Valid() && state == Output && stateOutPos == |Zbits()| && !back.ended
      modifies this`nblock, this`stateOutPos, this`blockCRC, this`sealed, this`state, inUse, back`blockNo, back.w`zbits
      ensures Valid() && state == Input && nblock == 0
    {
      hide Original, Gathered, AllGood, Buffered, BytesBits, BitsOf, HeaderBits, SentBits;
      assert Zbits()[stateOutPos..] == [];
      nblock, stateOutPos, blockCRC := 0, 0, CRC_START;
      back.w.zbits := [];
      back.blockNo := back.blockNo + 1;
      ClearInUse();
      sealed, state := false, Input;
      assert block[..0] == [];
      GatheredStart(inUse[..], stateInCh, stateInLen, Original(back.sents), consumed);
    }

    /** copy_output_until_stop. */
    method CopyOutput(availOut: nat) returns (out: seq<Byte>)
      requires Valid() && state == Output
      modifies this`stateOutPos, this`handed
      ensures Valid() && state == Output && handed == old(handed) + out && |out| <= availOut
      ensures stateOutPos < |Zbits()| ==> |out| == availOut
      ensures stateOutPos == old(stateOutPos) + |out|
    {
      hide Original, Gathered, BackEnd.Valid, AllGood, Tells;
      out := [];
      ghost var h0, p0 := handed, stateOutPos;
      while true
        invariant p0 <= stateOutPos <= |Zbits()| && out == Zbits()[p0..stateOutPos] && |out| <= availOut && handed == h0
        decreases |Zbits()| - stateOutPos
      {
        if |out| == availOut { break; }
        if stateOutPos >= |Zbits()| { break; }
        out := out + [Zbits()[stateOutPos]];
        stateOutPos := stateOutPos + 1;
      }
      handed := handed + out;
      assert Zbits()[p0..] == out + Zbits()[stateOutPos..];
      assert h0 + (out + Zbits()[stateOutPos..]) == (h0 + out) + Zbits()[stateOutPos..];
    }

    /** The output step: hand out what is ready, and begin a new block when all of it is gone. */
    method OutputStep(room: nat) returns (o: seq<Byte>, stop: bool)
      requires Valid() && state == Output && mode != Idle
      modifies this`nblock, this`stateOutPos, this`blockCRC, this`sealed, this`state, this`handed, inUse, back`blockNo,
               back.w`zbits
      ensures Valid() && handed == old(handed) + o && |o| <= room
      ensures stop ==> (mode == Finishing ==> state == Output) && (mode == Flushing && state == Input ==> nblock == 0)
      ensures stop && mode == Flushing ==> state == Input || stateOutPos < |Zbits()|
      ensures state == Output && stateOutPos < |Zbits()| ==> |o| == room
      ensures state == Input ==> stateOutPos >= |Zbits()|
      ensures stop && mode == Running ==> |o| == room
      ensures stop && mode == Finishing && stateOutPos >= |Zbits()| ==> availInExpect == 0 && EmptyRL()
      ensures stop && mode == Flushing && stateOutPos >= |Zbits()| ==> availInExpect == 0 && EmptyRL()
      ensures !stop ==> state == Input && !(mode != Running && availInExpect == 0 && EmptyRL())
      ensures back.ended ==> stop && stateOutPos == old(stateOutPos) + |o| && Zbits() == old(Zbits())
    {
      hide Original, Gathered, BackEnd.Valid, AllGood, Tells;
      o := CopyOutput(room);
      if stateOutPos < |Zbits()| { return o, true; }
      if mode == Finishing && availInExpect == 0 && EmptyRL() { return o, true; }
      PrepareNewBlock();
      stop := mode == Flushing && availInExpect == 0 && EmptyRL();
    }

    /** The input step: take bytes, and compress when the block is full or a flush is due. */
    method InputStep(input: seq<Byte>) returns (used: nat, stop: bool)
      requires Valid() && state == Input && mode != Idle && (mode != Running ==> availInExpect == |input|)
      modifies this`stateInCh, this`stateInLen, this`nblock, this`blockCRC, this`consumed, this`availInExpect,
               this`sealed
      modifies this`stateOutPos, this`state, block, inUse, back`sents, back`combinedCRC, back`begun, back`ended, back.w
      ensures Valid() && used <= |input| && consumed == old(consumed) + input[..used]
      ensures mode != Running ==> availInExpect == |input| - used
      ensures |input| > 0 ==> used > 0
      ensures stop ==> state == Input && used == |input| && mode == Running
      ensures !stop ==> state == Output && (mode != Running && availInExpect == 0 ==> EmptyRL())
      ensures !stop && used == |input| && mode != Running ==> EmptyRL()
      ensures !stop && |input| == 0 ==> mode != Running
      ensures back.ended ==> stateOutPos < |Zbits()|
    {
      hide Original, Gathered, BackEnd.Valid, AllGood, Tells;
      assert Zbits()[stateOutPos..] == [] && handed + [] == handed;
      used := CopyInput(input);
      stop := false;
      if mode != Running && availInExpect == 0 {
        FlushRL();
        CompressBlock(mode == Finishing);
      } else if nblock >= nblockMAX {
        CompressBlock(false);
      } else if used == |input| {
        stop := true;
      } else {
        assert false;
      }
    }

    /** handle_compress: hands out and takes in until one of the two runs dry. */
    method HandleCompress(input: seq<Byte>, availOut: nat) returns (progress: bool, used: nat, out: seq<Byte>)
      requires Valid() && mode != Idle && (mode != Running ==> availInExpect == |input|)
      modifies this`stateInCh, this`stateInLen, this`nblock, this`blockCRC, this`consumed, this`availInExpect,
               this`sealed
      modifies this`stateOutPos, this`state, this`handed, block, inUse, back, back.w
      ensures Valid() && used <= |input| && consumed == old(consumed) + input[..used]
      ensures handed == old(handed) + out && |out| <= availOut
      ensures mode != Running ==> availInExpect == |input| - used
      ensures progress <==> used > 0 || |out| > 0
      ensures mode == Finishing ==> state == Output
      ensures mode == Flushing && state == Input ==> nblock == 0
      ensures mode == Flushing ==> state == Input || stateOutPos < |Zbits()|
      ensures mode != Running ==> |out| == availOut || (availInExpect == 0 && EmptyRL() && stateOutPos >= |Zbits()|)
      ensures mode == Running ==> used == |input| || |out| == availOut
      ensures old(back.ended ==> stateOutPos < |Zbits()|) && back.ended && out == [] ==> stateOutPos < |Zbits()|
    {
      hide Original, Gathered, BackEnd.Valid, AllGood, Tells, Valid;
      used, out := 0, [];
      assert input[..0] == [];
      assert old(handed) + [] == old(handed);
      while true
        invariant Valid() && used <= |input| && consumed == old(consumed) + input[..used]
        invariant handed == old(handed) + out && |out| <= availOut
        invariant mode != Running ==> availInExpect == |input| - used
        invariant old(back.ended ==> stateOutPos < |Zbits()|) && back.ended && out == [] ==> stateOutPos < |Zbits()|
        decreases |input| - used, if EmptyRL() then 0 else 1, if state == Input then 1 else 0
      {
        if state == Output {
          var o, done := OutputStep(availOut - |out|);
          ghost var o0 := out;
          out := out + o;
          assert handed == old(handed) + o0 + o;
          Joined(old(handed), o0, o);
          if done { break; }
        }
        var u, stop := InputStep(input[used..]);
        assert input[..used + u] == input[..used] + input[used..][..u];
        used := used + u;
        if stop { break; }
      }
      progress := used > 0 || |out| > 0;
    }

    /** Enters a mode; how much input a flush or finish covers is remembered. */
    method Announce(n: nat, m: Mode)
      requires Valid() && (state == Output && EmptyRL() && !back.ended ==> m == Flushing)
      requires state == Output && back.ended ==> (m == Finishing || m == Idle) && n == 0
      modifies this`availInExpect, this`mode
      ensures Valid() && availInExpect == n && mode == m
    {
      hide Gathered, Original, BackEnd.Valid, AllGood, Tells;
      availInExpect, mode := n, m;
    }

    lemma ModeFacts()
      requires Valid()
      ensures back.ended ==> state == Output && EmptyRL() && (mode == Finishing || mode == Idle) && availInExpect == 0
      ensures state == Output && EmptyRL() && !back.ended ==> mode == Flushing
    {
      hide Gathered, Original, BackEnd.Valid, AllGood, Tells;
    }

    /** The call is out of order: nothing may follow the end, a flush or a finish must be gone on with, and with
        the input that was announced for it. */
    predicate OutOfOrder(action: Action, n: nat)
      reads this
    {
      match mode
      case Idle => true
      case Running => false
      case Flushing => action != FLUSH || availInExpect != n
      case Finishing => action != FINISH || availInExpect != n
    }

    /** Going on with a flush. */
    method GoOnFlushing(input: seq<Byte>, availOut: nat) returns (answer: Answer, used: nat, out: seq<Byte>)
      requires Steady() && mode == Flushing && availInExpect == |input|
      modifies this, block, inUse, back, back.w
      ensures Steady() && used <= |input| && consumed == old(consumed) + input[..used]
      ensures handed == old(handed) + out && |out| <= availOut && availInExpect == |input| - used
      ensures if mode == Flushing then
                answer == FlushOk && |out| == availOut
                && (availInExpect > 0 || !EmptyRL() || stateOutPos < |Zbits()|)
              else
                answer == RunOk && mode == Running && used == |input| && Original(back.sents) == consumed
                && back.Valid() && !back.ended && Accounted(handed, back.w.Left(), back.SoFar())
    {
      hide Original, Gathered, BackEnd.Valid, AllGood, Tells, Valid, Accounted, Sizes, Sending, Filling,
        Writer.Valid, Writer.Left, BackEnd.SoFar;
      var progress;
      progress, used, out := HandleCompress(input, availOut);
      ModeFacts();
      if availInExpect > 0 || !EmptyRL() || stateOutPos < |Zbits()| { return FlushOk, used, out; }
      HandedOut();
      Announce(availInExpect, Running);
      return RunOk, used, out;
    }

    /** Going on with a finish. */
    method GoOnFinishing(input: seq<Byte>, availOut: nat) returns (answer: Answer, used: nat, out: seq<Byte>)
      requires Steady() && mode == Finishing && availInExpect == |input|
      modifies this, block, inUse, back, back.w
      ensures Steady() && used <= |input| && consumed == old(consumed) + input[..used]
      ensures handed == old(handed) + out && |out| <= availOut && availInExpect == |input| - used
      ensures answer == SequenceError <==> used == 0 && out == []
      ensures answer == SequenceError ==> availOut == 0 && mode == Finishing
      ensures answer != SequenceError ==>
                if mode == Finishing then
                  answer == FinishOk && |out| == availOut
                  && (availInExpect > 0 || !EmptyRL() || stateOutPos < |Zbits()|)
                else answer == StreamEnd && mode == Idle && used == |input| && Encodes(handed, back.level, consumed)
    {
      hide Original, Gathered, BackEnd.Valid, AllGood, Tells, Valid, Encodes, Accounted, Sizes, Sending, Filling,
        Writer.Valid, Writer.Left, BackEnd.SoFar;
      var progress;
      progress, used, out := HandleCompress(input, availOut);
      ModeFacts();
      if !progress { return SequenceError, used, out; }
      if availInExpect > 0 || !EmptyRL() || stateOutPos < |Zbits()| { return FinishOk, used, out; }
      HandedOut();
      Announce(availInExpect, Idle);
      return StreamEnd, used, out;
    }

    /** BZ2_bzCompress: one call, with the bytes and the room it is given. */
    method BzCompress(action: Action, input: seq<Byte>, availOut: nat)
      returns (answer: Answer, used: nat, out: seq<Byte>)
      requires Steady()
      modifies this, block, inUse, back, back.w
      ensures Steady() && used <= |input| && consumed == old(consumed) + input[..used]
      ensures handed == old(handed) + out && |out| <= availOut
      ensures answer == SequenceError <==>
              old(OutOfOrder(action, |input|)) || (action == FINISH && used == 0 && out == [])
      ensures answer == ParamError <==>
              old(mode) == Running && (action == Unknown || (action == RUN && used == 0 && out == []))
      ensures old(OutOfOrder(action, |input|)) || action == Unknown ==> used == 0 && out == [] && mode == old(mode)
      ensures !old(OutOfOrder(action, |input|)) && action == FINISH && availOut > 0 ==> used > 0 || out != []
      ensures action == RUN && answer != SequenceError ==>
                mode == Running && (used == |input| || |out| == availOut)
      ensures answer == FlushOk || answer == FinishOk ==>
                |out| == availOut && availInExpect == |input| - used
                && (availInExpect > 0 || !EmptyRL() || stateOutPos < |Zbits()|)
      ensures answer == FlushOk ==> action == FLUSH && mode == Flushing
      ensures answer == FinishOk ==> action == FINISH && mode == Finishing
      ensures answer == StreamEnd ==>
                action == FINISH && mode == Idle && used == |input| && Encodes(handed, back.level, consumed)
      ensures answer == RunOk ==> action != FINISH && mode == Running
      ensures answer == RunOk && action == FLUSH ==>
                used == |input| && Original(back.sents) == consumed && back.Valid() && !back.ended
                  && Accounted(handed, back.w.Left(), back.SoFar())
    {
      hide Original, Gathered, BackEnd.Valid, AllGood, Tells, Valid, Encodes, Accounted, Sizes, Sending, Filling,
        Writer.Valid, Writer.Left, BackEnd.SoFar;
      used, out := 0, [];
      assert input[..0] == [] && consumed + [] == consumed && handed + [] == handed;
      ModeFacts();
      if mode == Idle { return SequenceError, 0, []; }
      if mode == Running {
        if action == RUN {
          var progress;
          progress, used, out := HandleCompress(input, availOut);
          ModeFacts();
          return if progress then RunOk else ParamError, used, out;
        }
        if action == Unknown { return ParamError, 0, []; }
        Announce(|input|, if action == FLUSH then Flushing else Finishing);
      }
      if mode == Flushing {
        if action != FLUSH || availInExpect != |input| { return SequenceError, 0, []; }
        answer, used, out := GoOnFlushing(input, availOut);
      } else {
        if action != FINISH || availInExpect != |input| { return SequenceError, 0, []; }
        answer, used, out := GoOnFinishing(input, availOut);
      }
    }

    /** What has been handed out is never more than the bytes taken in may need. */
    lemma NotLong()
      requires Valid()
      ensures |handed| <= Most(|consumed|)
    {
      hide Gathered, BitsOf, BytesBits, Buffered, AllGood, StreamBits, HeaderBits, SentBits;
      StreamSize.StreamSize(back.sents, back.level);
      assert |Original(back.sents)| <= |consumed| by {
        if state == Input {
          GatheredWhole(block[..nblock], inUse[..], blockCRC, stateInCh, stateInLen, sealed, Original(back.sents),
                        consumed);
        }
      }
      MulMono(|Original(back.sents)|, |consumed|, BITS_A_BYTE);
    }

    /** With no run pending and nothing left to hand out, all is accounted for. */
    lemma HandedOut()
      requires Valid() && EmptyRL() && stateOutPos >= |Zbits()|
      requires state == Input ==> nblock == 0
      ensures back.Valid() && Original(back.sents) == consumed
      ensures back.ended ==> Encodes(handed, back.level, consumed)
      ensures !back.ended ==> Accounted(handed, back.w.Left(), back.SoFar())
    {
      hide Original, BitsOf, BytesBits, Buffered, AllGood, Padded, StreamBits;
      assert Zbits()[stateOutPos..] == [] && handed + [] == handed;
      if state == Input {
        assert block[..nblock] == [];
      }
    }
  }

  lemma NothingSent()
    ensures BytesBits([]) == [] && BitsOf(0, 0) == []
  {
  }

  lemma GatheredUsed(blk: seq<Byte>, used: seq<bool>, crc: Word, ch: int, len: int, sealed: bool, before: seq<Byte>,
      consumed: seq<Byte>)
    requires Gathered(blk, used, crc, ch, len, sealed, before, consumed)
    ensures blk != [] ==> AllUsed(blk, used)
  {
    hide ReadAll, Crc;
  }

  lemma BeforeBlock(handed: seq<Byte>, left: seq<bool>, s0: seq<bool>)
    requires Accounted(handed + [], left, s0)
    ensures BytesBits(handed) + left == s0 && BytesBits([]) + left == left
  {
    assert handed + [] == handed;
  }

  /** After a block: what it added is there, ready or left over. */
  lemma AfterBlock(z: seq<Byte>, w0: seq<bool>, s0: seq<bool>, zbits: seq<Byte>, left: seq<bool>, s1: seq<bool>)
    requires BytesBits(z) + w0 == s0 && Grown(w0, s0, BytesBits(zbits) + left, s1)
    ensures Accounted(z + zbits[0..], left, s1)
  {
    hide BytesBits;
    assert zbits[0..] == zbits;
    BytesBitsConcat(z, zbits);
    var more := s1[|s0|..];
    assert s1 == s0 + more;
    assert BytesBits(z) + BytesBits(zbits) + left == BytesBits(z) + (BytesBits(zbits) + left);
    assert BytesBits(z) + (w0 + more) == BytesBits(z) + w0 + more;
  }

  lemma Shifted(a: seq<bool>, p: seq<bool>, q: seq<bool>)
    requires p <= q && |q| < |p| + 8
    ensures a + p <= a + q && |a + q| < |a + p| + 8
  {
  }

  lemma ClosedAll(z: seq<bool>, w0: seq<bool>, s0: seq<bool>, w1: seq<bool>, s1: seq<bool>, t: seq<bool>, q: seq<bool>)
    requires z + w0 == s0 && Grown(w0, s0, w1, s1) && w1 + t <= q && |q| < |w1 + t| + 8
    ensures s1 + t <= z + q && |z + q| < |s1 + t| + 8
  {
    var more := s1[|s0|..];
    assert s1 == s0 + more;
    Assoc(z, w0, more);
    Assoc(z, w0 + more, t);
    Shifted(z, w1 + t, q);
  }

  /** After the last block: the stream is complete. */
  lemma AfterLast(z: seq<Byte>, w0: seq<bool>, s0: seq<bool>, w1: seq<bool>, sents: seq<Sent>, level: nat,
      zbits: seq<Byte>)
    requires AllGood(sents, level) && BytesBits(z) + w0 == s0
             && Grown(w0, s0, w1, HeaderBits(level) + SentBits(sents, level))
    requires Closed(w1, Combined(sents), zbits)
    ensures Padded(StreamBits(sents, level), z + zbits[0..])
  {
    hide BytesBits, HeaderBits, SentBits, TrailerBits, AllGood, Grown;
    assert zbits[0..] == zbits;
    BytesBitsConcat(z, zbits);
    ClosedAll(BytesBits(z), w0, s0, w1, HeaderBits(level) + SentBits(sents, level), TrailerBits(Combined(sents)),
              BytesBits(zbits));
  }

  lemma CrcNone(crc: Word)
    ensures Crc(crc, Rep(0, 0)) == crc && forall c: Byte :: Rep(c, 0) == []
  {
    assert Rep(0, 0) == [];
  }

  lemma GatheredEmpty(used: seq<bool>, crc: Word, before: seq<Byte>, consumed: seq<Byte>)
    requires Gathered([], used, crc, 256, 0, false, before, consumed)
    ensures crc == Crc(CRC_START, ReadAll(EMPTY, []).out) && before + ReadAll(EMPTY, []).out == consumed
            && ReadAll(EMPTY, []).len == 0
    ensures forall c: Byte :: used[c] <==> c in []
  {
  }

  lemma GatheredSeal(blk: seq<Byte>, used: seq<bool>, crc: Word, before: seq<Byte>, consumed: seq<Byte>)
    requires Gathered(blk, used, crc, 256, 0, false, before, consumed)
    ensures Gathered(blk, used, crc, 256, 0, true, before, consumed)
  {
  }
}
