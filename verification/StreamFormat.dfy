/** What a whole compressed stream looks like, and what a block's body must say about its block. */
module StreamFormat {
  import opened Bits
  import opened Rotations
  import opened Radix
  import opened BwtTheory
  import opened BitStream
  import opened RunLength
  import opened BlockCrc
  import opened MtfEncode
  import opened BlockFormat
  import opened BlockParts
  import MTF = MoveToFront

  // ---- blocks ----

  /** The body is the block's: its rotations sorted, the last column in symbols. */
  ghost predicate Describes(d: Body, b: Block, f: seq<int>) {
    && BlockFormat.WellFormed(d) && SortedRotations(b, f) && |b| <= MAX_BLOCK
    && AllUsed(b, d.used) && d.origPtr < |b| && f[d.origPtr] == 0
    && MTF.Encodable(InUse(d.used), Column(b, f, d.used)) && d.syms == MTF.Symbols(InUse(d.used), Column(b, f, d.used))
  }

  lemma DescribesFacts(d: Body, b: Block, f: seq<int>)
    requires Describes(d, b, f)
    ensures BlockFormat.WellFormed(d) && SortedRotations(b, f) && |b| <= MAX_BLOCK && IsPerm(f, |b|)
    ensures AllUsed(b, d.used) && d.origPtr < |b| && f[d.origPtr] == 0 && |d.used| == 256
    ensures MTF.Encodable(InUse(d.used), Column(b, f, d.used))
            && d.syms == MTF.Symbols(InUse(d.used), Column(b, f, d.used))
  {
  }

  /** A block that has been sent. */
  datatype Sent = Sent(body: Body, block: Block, order: seq<int>)

  ghost predicate Good(x: Sent, level: nat) {
    Describes(x.body, x.block, x.order) && Whole(x.block) && |x.block| <= 100000 * level
  }

  ghost predicate AllGood(sents: seq<Sent>, level: nat) {
    forall i :: 0 <= i < |sents| ==> Good(sents[i], level)
  }

  /** The block's own checksum. */
  ghost function BlockSum(b: Block): Word { Final(Crc(CRC_START, Expand(b))) }

  // ---- the stream ----

  ghost function SentBits(sents: seq<Sent>, level: nat): (s: seq<bool>)
    requires AllGood(sents, level)
  {
    if sents == [] then []
    else
      assert Good(sents[|sents| - 1], level);
      SentBits(sents[..|sents| - 1], level) + BlockBits(BlockSum(sents[|sents| - 1].block), sents[|sents| - 1].body)
  }

  /** The checksum over all blocks. */
  ghost function Combined(sents: seq<Sent>): Word {
    if sents == [] then 0 else Chain(Combined(sents[..|sents| - 1]), BlockSum(sents[|sents| - 1].block))
  }

  /** The bytes that were compressed. */
  ghost function Original(sents: seq<Sent>): seq<Byte> {
    if sents == [] then [] else Original(sents[..|sents| - 1]) + Expand(sents[|sents| - 1].block)
  }

  ghost function HeaderBits(level: nat): seq<bool> {
    BitsOf(0x42, 8) + (BitsOf(0x5a, 8) + (BitsOf(0x68, 8) + BitsOf(0x30 + level, 8)))
  }

  const END_HIGH: Word := 0x1772_4538
  const END_LOW: nat := 0x5090

  ghost function TrailerBits(u: Word): seq<bool> {
    BitsOf(END_HIGH, 32) + (BitsOf(END_LOW, 16) + BitsOf(u, 32))
  }

  ghost function StreamBits(sents: seq<Sent>, level: nat): seq<bool>
    requires AllGood(sents, level)
  {
    HeaderBits(level) + SentBits(sents, level) + TrailerBits(Combined(sents))
  }

  /** The bits in bytes, the last byte filled up. */
  ghost predicate Padded(bits: seq<bool>, z: seq<Byte>) {
    bits <= BytesBits(z) && |BytesBits(z)| < |bits| + 8
  }

  /** z is a compressed form of x. */
  ghost predicate Encodes(z: seq<Byte>, level: nat, x: seq<Byte>) {
    exists sents :: AllGood(sents, level) && Original(sents) == x && Padded(StreamBits(sents, level), z)
  }

  // ---- one block more ----

  lemma OneMore(sents: seq<Sent>, x: Sent, level: nat)
    requires AllGood(sents, level) && Good(x, level)
    ensures BlockFormat.WellFormed(x.body) && AllGood(sents + [x], level)
    ensures SentBits(sents + [x], level) == SentBits(sents, level) + BlockBits(BlockSum(x.block), x.body)
    ensures Combined(sents + [x]) == Chain(Combined(sents), BlockSum(x.block))
            && Original(sents + [x]) == Original(sents) + Expand(x.block)
  {
    hide Good, BlockBits, Expand, BlockSum, Chain;
    GoodFacts(x, level);
    assert (sents + [x])[..|sents|] == sents;
  }

  lemma GoodFacts(x: Sent, level: nat)
    requires Good(x, level)
    ensures BlockFormat.WellFormed(x.body) && Describes(x.body, x.block, x.order) && Whole(x.block)
            && |x.block| <= 100000 * level
  {
    hide BlockFormat.WellFormed, SortedRotations, Whole, AllUsed;
  }

  /** The blocks from k on. */
  ghost function SentFrom(sents: seq<Sent>, level: nat, k: nat): (s: seq<bool>)
    requires AllGood(sents, level) && k <= |sents|
    decreases |sents| - k
  {
    if k == |sents| then []
    else
      assert Good(sents[k], level);
      BlockBits(BlockSum(sents[k].block), sents[k].body) + SentFrom(sents, level, k + 1)
  }

  lemma {:induction false} SentJoin(sents: seq<Sent>, level: nat, k: nat)
    requires AllGood(sents, level) && k <= |sents|
    ensures AllGood(sents[..k], level) && SentBits(sents, level) == SentBits(sents[..k], level)
            + SentFrom(sents, level, k)
    decreases |sents| - k
  {
    hide Good, BlockBits, BlockSum;
    if k == |sents| {
      assert sents[..k] == sents;
    } else {
      SentJoin(sents, level, k + 1);
      assert Good(sents[k], level);
      GoodFacts(sents[k], level);
      OneMore(sents[..k], sents[k], level);
      assert sents[..k + 1] == sents[..k] + [sents[k]];
      Assoc(SentBits(sents[..k], level), BlockBits(BlockSum(sents[k].block), sents[k].body),
            SentFrom(sents, level, k + 1));
    }
  }

  lemma SentStart(sents: seq<Sent>, level: nat)
    requires AllGood(sents, level)
    ensures SentBits(sents, level) == SentFrom(sents, level, 0)
  {
    hide Good, BlockBits, SentFrom;
    SentJoin(sents, level, 0);
    assert sents[..0] == [];
  }

  lemma SentNext(sents: seq<Sent>, level: nat, k: nat)
    requires AllGood(sents, level) && k < |sents|
    ensures Good(sents[k], level) && BlockFormat.WellFormed(sents[k].body)
    ensures SentFrom(sents, level, k) == BlockBits(BlockSum(sents[k].block), sents[k].body)
            + SentFrom(sents, level, k + 1)
    ensures Combined(sents[..k + 1]) == Chain(Combined(sents[..k]), BlockSum(sents[k].block))
    ensures Original(sents[..k + 1]) == Original(sents[..k]) + Expand(sents[k].block)
  {
    hide Good, BlockBits, BlockSum, Expand, Chain;
    assert Good(sents[k], level);
    GoodFacts(sents[k], level);
    assert sents[..k + 1][..k] == sents[..k];
  }

  lemma {:induction false} OriginalPrefix(sents: seq<Sent>, k: nat)
    requires k <= |sents|
    ensures Original(sents[..k]) <= Original(sents)
    decreases |sents| - k
  {
    hide Expand;
    if k == |sents| {
      assert sents[..k] == sents;
    } else {
      OriginalPrefix(sents, k + 1);
      assert sents[..k + 1][..k] == sents[..k];
    }
  }

  // ---- streams whose checksums may be wrong ----

  /** A stream as it may be found: well-formed blocks, some checksum with each, and some checksum over all. */
  datatype Stored = Stored(sents: seq<Sent>, sums: seq<Word>, total: Word, level: nat)

  ghost predicate Fit(st: Stored) { AllGood(st.sents, st.level) && |st.sums| == |st.sents| }

  /** The blocks from k on. */
  ghost function StoredFrom(st: Stored, k: nat): (s: seq<bool>)
    requires Fit(st) && k <= |st.sents|
    decreases |st.sents| - k
  {
    if k == |st.sents| then []
    else
      assert Good(st.sents[k], st.level);
      BlockBits(st.sums[k], st.sents[k].body) + StoredFrom(st, k + 1)
  }

  ghost function StoredBits(st: Stored): seq<bool>
    requires Fit(st)
  {
    HeaderBits(st.level) + StoredFrom(st, 0) + TrailerBits(st.total)
  }

  /** The first k blocks have the checksums they should have. */
  ghost predicate RightSoFar(st: Stored, k: nat)
    requires Fit(st)
  {
    k <= |st.sents| && forall i :: 0 <= i < k ==> st.sums[i] == BlockSum(st.sents[i].block)
  }

  ghost predicate Right(st: Stored)
    requires Fit(st)
  {
    RightSoFar(st, |st.sents|) && st.total == Combined(st.sents)
  }

  /** The stream with all its checksums right. */
  ghost function Rightly(sents: seq<Sent>, level: nat): (st: Stored)
    requires AllGood(sents, level)
    ensures Fit(st) && Right(st) && st.sents == sents && st.level == level
  {
    Stored(sents, seq(|sents|, i requires 0 <= i < |sents| => BlockSum(sents[i].block)), Combined(sents), level)
  }

  lemma RightlyBits(sents: seq<Sent>, level: nat)
    requires AllGood(sents, level)
    ensures StoredBits(Rightly(sents, level)) == StreamBits(sents, level)
  {
    hide StoredFrom, SentFrom, SentBits, HeaderBits, TrailerBits, Good, BlockSum, Combined;
    SentStart(sents, level);
    SameFrom(Rightly(sents, level), 0);
  }

  lemma {:induction false} SameFrom(st: Stored, k: nat)
    requires Fit(st) && Right(st) && k <= |st.sents|
    ensures StoredFrom(st, k) == SentFrom(st.sents, st.level, k)
    decreases |st.sents| - k
  {
    hide Good, BlockBits, BlockSum, Combined;
    if k < |st.sents| { SameFrom(st, k + 1); }
  }

  lemma StoredNext(st: Stored, k: nat)
    requires Fit(st) && k < |st.sents|
    ensures Good(st.sents[k], st.level) && BlockFormat.WellFormed(st.sents[k].body)
    ensures StoredFrom(st, k) == BlockBits(st.sums[k], st.sents[k].body) + StoredFrom(st, k + 1)
  {
    hide Good, BlockBits;
    assert Good(st.sents[k], st.level);
    GoodFacts(st.sents[k], st.level);
  }
}
