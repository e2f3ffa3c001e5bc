/** How long a compressed stream can get: each part of it has a bound, so a stream has one in terms of the bytes it
    stands for. */
module StreamSize {
  import opened Bits
  import opened Rotations
  import opened BwtTheory
  import opened BitStream
  import opened HuffmanCodes
  import opened HuffmanForest
  import opened MtfEncode
  import opened RunLength
  import opened BlockFormat
  import opened StreamFormat
  import MTF = MoveToFront

  const BITS_A_BYTE := 60900  // a block of one byte, with six full tables

  /** No stream for n bytes is longer. */
  function Most(n: nat): nat { 15 + 7613 * n }

  // ---- a block's body ----

  lemma {:induction false} CellsSize(used: seq<bool>, n: nat)
    requires |used| == 256 && n <= 16
    ensures |CellsBits(used, n)| <= 16 * n
  {
    hide RowUsed;
    if n > 0 { CellsSize(used, n - 1); }
  }

  lemma {:induction false} SelectorsSize(n: nat, sels: seq<Byte>, k: nat)
    requires MTF.Encodable(n, sels) && k <= |sels|
    ensures |SelectorsBits(n, sels, k)| <= n * k
  {
    hide SelectorMtf, MTF.Encodable;
    if k > 0 {
      SelectorsSize(n, sels, k - 1);
      assert n * k == n * (k - 1) + n;
    }
  }

  lemma {:induction false} DeltaSize(curr: int, next: int)
    requires 1 <= curr <= LONGEST && 1 <= next <= LONGEST
    ensures |DeltaBits(curr, next)| == 1 + 2 * if curr < next then next - curr else curr - next
    decreases if curr < next then next - curr else curr - next
  {
    if curr < next {
      DeltaSize(curr + 1, next);
    } else if curr > next {
      DeltaSize(curr - 1, next);
    }
  }

  lemma {:induction false} TableSize(lens: seq<int>, k: nat)
    requires 0 < |lens| && k <= |lens| && forall i :: 0 <= i < |lens| ==> 1 <= lens[i] <= LONGEST
    ensures |TableBits(lens, k)| <= 5 + 39 * k
  {
    hide BitsOf;
    if k > 0 {
      TableSize(lens, k - 1);
      DeltaSize(if k == 1 then lens[0] else lens[k - 2], lens[k - 1]);
    }
  }

  lemma {:induction false} TablesSize(lens: seq<seq<int>>, t: nat, alphaSize: nat)
    requires t <= |lens| && (forall i :: 0 <= i < |lens| ==> Usable(lens[i], alphaSize))
             && forall i :: 0 <= i < |lens| ==> 0 < |lens[i]| && lens[i][0] >= 0
    ensures |TablesBits(lens, t)| <= 10067 * t
  {
    hide TableBits;
    if t > 0 {
      TablesSize(lens, t - 1, alphaSize);
      assert Usable(lens[t - 1], alphaSize);
      TableSize(lens[t - 1], |lens[t - 1]|);
    }
  }

  lemma {:induction false} DataSize(d: Body, k: nat)
    requires BlockFormat.WellFormed(d) && k <= |d.syms|
    ensures |DataBits(d, k)| <= LONGEST * k
  {
    hide BlockFormat.WellFormed, SymbolBits;
    if k > 0 {
      DataSize(d, k - 1);
      SymbolSize(d, k - 1);
    }
  }

  lemma SymbolSize(d: Body, k: nat)
    requires BlockFormat.WellFormed(d) && k < |d.syms|
    ensures |SymbolBits(d, k)| <= LONGEST
  {
    hide KraftSum, Pow2;
    GroupInRange(|d.syms|, k);
    assert Usable(d.lens[d.selectors[k / GROUP]], InUse(d.used) + 2);
  }

  lemma FewGroups(n: nat)
    requires n > 0
    ensures Groups(n) <= n
  {
  }

  lemma BodySize(d: Body)
    requires BlockFormat.WellFormed(d)
    ensures |BodyBits(d)| <= 60716 + 26 * |d.syms|
  {
    SelectorsEncodable(d);
    CellsSize(d.used, 16);
    SelectorsSize(d.nGroups, d.selectors, |d.selectors|);
    TablesSize(d.lens, d.nGroups, InUse(d.used) + 2);
    DataSize(d, |d.syms|);
    FewGroups(|d.syms|);
    MulMono(d.nGroups, 6, |d.selectors|);
    hide BitsOf, CellsBits, SelectorsBits, TablesBits, DataBits, Usable;
  }

  lemma BlockSize(crc: Word, d: Body)
    requires BlockFormat.WellFormed(d)
    ensures |BlockBits(crc, d)| <= 60797 + 26 * |d.syms|
  {
    hide BitsOf, BodyBits;
    BodySize(d);
  }

  // ---- a block ----

  /** Five stored bytes stand for at least four. */
  lemma {:induction false} ReadSize(s: seq<Byte>)
    ensures ReadAll(EMPTY, s).len <= 4 && 4 * |s| <= 5 * |ReadAll(EMPTY, s).out| - ReadAll(EMPTY, s).len
  {
    if s != [] { ReadSize(s[..|s| - 1]); }
  }

  lemma ExpandedSize(b: Block)
    requires Whole(b)
    ensures 4 * |b| <= 5 * |Expand(b)|
  {
    ReadSize(b);
    ExpandIsRead(EMPTY, b);
    assert [] + Expand(b) == Expand(b);
  }

  lemma SentSize(x: Sent, level: nat)
    requires Good(x, level)
    ensures BlockFormat.WellFormed(x.body)
            && |BlockBits(BlockSum(x.block), x.body)| <= BITS_A_BYTE * |Expand(x.block)|
  {
    hide Whole, Expand, BlockBits, BlockSum, SortedRotations, AllUsed, BlockFormat.WellFormed, MTF.Symbols, Describes,
      Good;
    GoodFacts(x, level);
    DescribesFacts(x.body, x.block, x.order);
    BlockSize(BlockSum(x.block), x.body);
    ExpandedSize(x.block);
    MTF.SymbolsShort(InUse(x.body.used), Column(x.block, x.order, x.body.used));
  }

  lemma {:induction false} SentsSize(sents: seq<Sent>, level: nat)
    requires AllGood(sents, level)
    ensures |SentBits(sents, level)| <= BITS_A_BYTE * |Original(sents)|
  {
    hide Good, Expand, BlockBits, BlockSum;
    if sents != [] {
      SentsSize(sents[..|sents| - 1], level);
      SentSize(sents[|sents| - 1], level);
    }
  }

  lemma StreamSize(sents: seq<Sent>, level: nat)
    requires AllGood(sents, level)
    ensures |HeaderBits(level) + SentBits(sents, level)| <= 32 + BITS_A_BYTE * |Original(sents)|
    ensures |StreamBits(sents, level)| <= 112 + BITS_A_BYTE * |Original(sents)|
  {
    hide BitsOf, SentBits, AllGood;
    SentsSize(sents, level);
  }
}
