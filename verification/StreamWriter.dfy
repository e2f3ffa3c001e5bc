/** BZ2_compressBlock with the stream's header and trailer: the compressor's back end. */
module StreamWriter {
  import opened Bits
  import opened Rotations
  import opened BitStream
  import opened RunLength
  import opened BlockCrc
  import opened MtfEncode
  import opened BlockFormat
  import opened BlockParts
  import opened StreamFormat
  import opened BlockCompress
  import MainCompare

  /** The state of the compressor that its back end owns. */
  class BackEnd {
    const w: Writer
    const level: nat
    const workFactor: int
    var combinedCRC: Word
    var blockNo: nat
    ghost var sents: seq<Sent>
    ghost var begun: bool  // the header has been written
    ghost var ended: bool  // so has the trailer

    ghost predicate Valid()
      reads this, w
    {
      && 1 <= level <= 9 && blockNo >= 1 && AllGood(sents, level) && combinedCRC == Combined(sents)
      && (!ended ==> w.Valid()) && (!begun ==> sents == [] && !ended)
    }

    /** What has been written, apart from the trailer. */
    ghost function SoFar(): seq<bool>
      reads this
      requires AllGood(sents, level)
    {
      if begun then HeaderBits(level) + SentBits(sents, level) else []
    }

    constructor (level: nat, workFactor: int)
      requires 1 <= level <= 9
      ensures Valid() && !begun && !ended && sents == [] && blockNo == 1 && this.level == level
              && this.workFactor == workFactor
      ensures fresh(w) && w.Written() == [] && w.zbits == []
    {
      w := new Writer();
      this.level, this.workFactor := level, workFactor;
      combinedCRC, blockNo, sents, begun, ended := 0, 1, [], false, false;
    }

    /** The stream's header. */
    method SendHeader()
      requires Valid() && !begun && !ended
      modifies w, this`begun
      ensures Valid() && begun && Grown(old(w.Written()), old(SoFar()), w.Written(), SoFar())
    {
      hide BitsOf, Pow2, BytesBits, Buffered;
      Pow2Constants();
      ghost var w0 := w.Written();
      w.Put(8, 0x42);
      w.Put(8, 0x5a);
      w.Put(8, 0x68);
      w.Put(8, 0x30 + level);
      begun := true;
      NoneSent(level);
      FourJoined(w0, BitsOf(0x42, 8), BitsOf(0x5a, 8), BitsOf(0x68, 8), BitsOf(0x30 + level, 8));
    }

    /** A block that is not empty. */
    method SendBlock(block: array<Byte>, nblock: int, inUse: array<bool>, blockCRC: Word)
      requires Valid() && begun && !ended && 0 < nblock <= 100000 * level
               && nblock + MainCompare.N_OVERSHOOT <= block.Length
      requires inUse.Length == 256 && inUse as object != block && AllUsed(block[..nblock], inUse[..])
               && Whole(block[..nblock])
      requires blockCRC == Crc(CRC_START, Expand(block[..nblock]))
      modifies w, block, this`sents, this`combinedCRC
      ensures Valid() && block[..nblock] == old(block[..nblock])
      ensures Original(sents) == old(Original(sents)) + Expand(block[..nblock])
      ensures Grown(old(w.Written()), old(SoFar()), w.Written(), SoFar())
    {
      hide BitsOf, BytesBits, Buffered, Describes, BlockBits, AllUsed, Whole, Expand, Crc, HeaderBits;
      ghost var b: Block, w0, s0, was := block[..nblock], w.Written(), SoFar(), sents;
      var crc := Final(blockCRC);
      combinedCRC := Chain(combinedCRC, crc);
      ghost var d, f := BlockCompress.CompressBlock(w, block, nblock, inUse, crc, workFactor);
      DescribesFacts(d, b, f);
      ghost var x := Sent(d, b, f);
      OneMore(was, x, level);
      sents := was + [x];
      ghost var more := BlockBits(crc, d);
      assert SoFar() == s0 + more by { Assoc(HeaderBits(level), SentBits(was, level), more); }
      assert (s0 + more)[..|s0|] == s0 && (s0 + more)[|s0|..] == more;
    }

    /** The stream's trailer, and the last byte filled up. */
    method SendTrailer()
      requires Valid() && begun && !ended
      modifies w, this`ended
      ensures Valid() && ended
      ensures sents == old(sents) && begun == old(begun) && Closed(old(w.Written()), Combined(sents), w.zbits)
    {
      hide BitsOf, Pow2, BytesBits, Buffered;
      Pow2Constants();
      ghost var w0 := w.Written();
      PutUInt32(w, END_HIGH);
      w.Put(16, END_LOW);
      PutUInt32(w, combinedCRC);
      ThreeJoined(w0, BitsOf(END_HIGH, 32), BitsOf(END_LOW, 16), BitsOf(combinedCRC, 32));
      w.Finish();
      ended := true;
    }

    /** BZ2_compressBlock. */
    method CompressBlock(block: array<Byte>, nblock: int, inUse: array<bool>, blockCRC: Word, isLast: bool)
      requires Valid() && !ended && (begun <==> blockNo > 1) && 0 <= nblock <= 100000 * level
      requires nblock + MainCompare.N_OVERSHOOT <= block.Length && inUse.Length == 256 && inUse as object != block
      requires nblock > 0 ==> AllUsed(block[..nblock], inUse[..])
      requires Whole(block[..nblock]) && blockCRC == Crc(CRC_START, Expand(block[..nblock]))
      modifies w, block, this`sents, this`combinedCRC, this`begun, this`ended
      ensures Valid() && begun && ended == isLast && block[..nblock] == old(block[..nblock])
      ensures Original(sents) == old(Original(sents)) + Expand(block[..nblock])
      ensures !isLast ==> Grown(old(w.Written()), old(SoFar()), w.Written(), SoFar())
      ensures isLast ==>
                exists w1 :: Grown(old(w.Written()), old(SoFar()), w1, SoFar()) && Closed(w1, Combined(sents), w.zbits)
      ensures isLast ==> w.zbits != []
    {
      hide BitsOf, BytesBits, Buffered, AllUsed, Whole, Expand, Crc, HeaderBits, TrailerBits, Good;
      ghost var w0, s0 := w.Written(), SoFar();
      if blockNo == 1 {
        SendHeader();
      }
      assert Grown(w0, s0, w.Written(), SoFar());
      if nblock > 0 {
        ghost var w1, s1 := w.Written(), SoFar();
        SendBlock(block, nblock, inUse, blockCRC);
        GrownOn(w0, s0, w1, s1, w.Written(), SoFar());
      } else {
        NothingExpanded(block[..nblock]);
        assert Original(sents) + [] == Original(sents);
      }
      if isLast {
        ghost var w2 := w.Written();
        SendTrailer();
        ClosedSome(w2, Combined(sents), w.zbits);
      }
    }
  }

  /** The trailer has been added, and zeros up to a byte. */
  ghost predicate Closed(w: seq<bool>, sum: Word, z: seq<Byte>) {
    Padded(w + TrailerBits(sum), z)
  }

  lemma ClosedSome(w: seq<bool>, sum: Word, z: seq<Byte>)
    requires Closed(w, sum, z)
    ensures z != []
  {
    hide BitsOf;
    assert |TrailerBits(sum)| == 80;
    assert BytesBits([]) == [];
  }

  lemma NothingExpanded(s: seq<Byte>)
    requires s == []
    ensures Expand(s) == []
  {
  }

  /** What has been written and what it should be have grown by the same bits. */
  ghost predicate Grown(w0: seq<bool>, s0: seq<bool>, w1: seq<bool>, s1: seq<bool>) {
    s0 <= s1 && w1 == w0 + s1[|s0|..]
  }

  lemma GrownOn(w0: seq<bool>, s0: seq<bool>, w1: seq<bool>, s1: seq<bool>, w2: seq<bool>, s2: seq<bool>)
    requires Grown(w0, s0, w1, s1) && Grown(w1, s1, w2, s2)
    ensures Grown(w0, s0, w2, s2)
  {
    assert s2[|s0|..] == s1[|s0|..] + s2[|s1|..];
  }

  lemma NoneSent(level: nat)
    ensures AllGood([], level) && HeaderBits(level) + SentBits([], level) == HeaderBits(level)
  {
    hide BitsOf;
  }

  lemma FourJoined(w: seq<bool>, a: seq<bool>, b: seq<bool>, c: seq<bool>, d: seq<bool>)
    ensures w + a + b + c + d == w + (a + (b + (c + d)))
  {
    Assoc(w + a + b, c, d);
    Assoc(w + a, b, c + d);
    Assoc(w, a, b + (c + d));
  }

  lemma ThreeJoined(w: seq<bool>, a: seq<bool>, b: seq<bool>, c: seq<bool>)
    ensures w + a + b + c == w + (a + (b + c))
  {
    Assoc(w + a, b, c);
    Assoc(w, a, b + c);
  }
}
