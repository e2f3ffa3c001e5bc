/** What the compressed body of a block looks like, bit by bit. */
module BlockFormat {
  import opened Bits
  import opened BitStream
  import opened HuffmanForest
  import opened HuffmanCodes
  import opened MtfEncode
  import MTF = MoveToFront

  const GROUP := 50

  /** Everything a block's body says. */
  datatype Body = Body(origPtr: nat, used: seq<bool>, nGroups: nat, selectors: seq<Byte>, lens: seq<seq<int>>,
      syms: seq<int>)

  /** A usable table: lengths from 1 to 20 that do not overfill the code space. */
  ghost predicate Usable(lens: seq<int>, alphaSize: nat) {
    && |lens| == alphaSize && 0 < alphaSize <= 258
    && (forall i :: 0 <= i < alphaSize ==> 1 <= lens[i] <= LONGEST)
    && KraftSum(lens, LONGEST) <= Pow2(LONGEST)
  }

  lemma UsableLengths(lens: seq<int>, alphaSize: nat)
    requires Usable(lens, alphaSize)
    ensures Lengths(lens, Shortest(lens), Longest(lens))
  {
    assert Shortest(lens) in lens && Longest(lens) in lens;
  }

  /** How many byte values occur. */
  ghost function InUse(used: seq<bool>): (c: nat)
    requires |used| == 256
    ensures c <= 256
  {
    UsedBelow(used, 256)
  }

  /** The number of groups of 50 symbols, the last perhaps short. */
  function Groups(n: nat): nat { (n + GROUP - 1) / GROUP }

  ghost predicate WellFormed(d: Body) {
    && |d.used| == 256 && 2 <= d.nGroups <= 6 && |d.lens| == d.nGroups && d.origPtr < Pow2(24)
    && InUse(d.used) > 0
    && (forall t :: 0 <= t < d.nGroups ==> Usable(d.lens[t], InUse(d.used) + 2))
    && 0 < |d.syms| && |d.selectors| == Groups(|d.syms|) < Pow2(15)
    && (forall i :: 0 <= i < |d.selectors| ==> d.selectors[i] < d.nGroups)
    && (forall k :: 0 <= k < |d.syms| ==> 0 <= d.syms[k] <= InUse(d.used) + 1)
    && (forall k :: 0 <= k < |d.syms| ==> (d.syms[k] == InUse(d.used) + 1 <==> k == |d.syms| - 1))
  }

  // ---- mapping table ----

  /** Some byte value from the first j of row i is used. */
  ghost predicate RowSome(used: seq<bool>, i: int, j: int)
    requires |used| == 256 && 0 <= i < 16 && 0 <= j <= 16
  {
    exists k :: 16 * i <= k < 16 * i + j && used[k]
  }

  ghost predicate RowUsed(used: seq<bool>, i: int)
    requires |used| == 256 && 0 <= i < 16
  {
    RowSome(used, i, 16)
  }

  /** Sixteen bits saying which rows of sixteen are not empty. */
  ghost function RowsBits(used: seq<bool>, n: nat): (s: seq<bool>)
    requires |used| == 256 && n <= 16
    ensures |s| == n && forall i :: 0 <= i < n ==> s[i] == RowUsed(used, i)
  {
    seq(n, i requires 0 <= i < n => RowUsed(used, i))
  }

  /** The rows that are not empty, bit by bit. */
  ghost function CellsBits(used: seq<bool>, n: nat): (s: seq<bool>)
    requires |used| == 256 && n <= 16
  {
    if n == 0 then []
    else CellsBits(used, n - 1) + (if RowUsed(used, n - 1) then used[16 * (n - 1)..16 * n] else [])
  }

  // ---- selectors ----

  /** The selectors as positions in a move-to-front list of the tables. */
  ghost function SelectorList(n: nat, sels: seq<Byte>): (l: seq<Byte>)
    requires MTF.Encodable(n, sels)
    ensures MTF.Listing(n, l)
  {
    if sels == [] then
      MTF.IdentityListing(n);
      MTF.Identity(n)
    else
      var k := |sels| - 1;
      var l := SelectorList(n, sels[..k]);
      MTF.FrontDistinct(l, MTF.IndexOf(l, sels[k]));
      MTF.Front(l, MTF.IndexOf(l, sels[k]))
  }

  ghost function SelectorMtf(n: nat, sels: seq<Byte>, i: int): (j: nat)
    requires MTF.Encodable(n, sels) && 0 <= i < |sels|
    ensures j < n
  {
    MTF.IndexOf(SelectorList(n, sels[..i]), sels[i])
  }

  lemma SelectorNext(n: nat, sels: seq<Byte>, i: int)
    requires MTF.Encodable(n, sels) && 0 <= i < |sels|
    ensures MTF.Encodable(n, sels[..i]) && MTF.Encodable(n, sels[..i + 1])
    ensures var l := SelectorList(n, sels[..i]);
            |l| == n && l[SelectorMtf(n, sels, i)] == sels[i]
              && SelectorList(n, sels[..i + 1]) == MTF.Front(l, SelectorMtf(n, sels, i))
  {
    assert sels[..i + 1][..i] == sels[..i];
  }

  /** j ones and a zero. */
  ghost function Unary(j: nat): (s: seq<bool>)
    ensures |s| == j + 1 && (forall i :: 0 <= i < j ==> s[i]) && !s[j]
  {
    seq(j, _ => true) + [false]
  }

  ghost function SelectorsBits(n: nat, sels: seq<Byte>, k: nat): (s: seq<bool>)
    requires MTF.Encodable(n, sels) && k <= |sels|
  {
    if k == 0 then [] else SelectorsBits(n, sels, k - 1) + Unary(SelectorMtf(n, sels, k - 1))
  }

  // ---- code lengths ----

  /** From one length to the next: up or down by ones, then a zero. */
  ghost function DeltaBits(curr: int, next: int): (s: seq<bool>)
    decreases if curr < next then next - curr else curr - next
  {
    if curr < next then [true, false] + DeltaBits(curr + 1, next)
    else if curr > next then [true, true] + DeltaBits(curr - 1, next)
    else [false]
  }

  ghost function TableBits(lens: seq<int>, k: nat): (s: seq<bool>)
    requires 0 < |lens| && k <= |lens| && lens[0] >= 0
  {
    if k == 0 then BitsOf(lens[0], 5)
    else TableBits(lens, k - 1) + DeltaBits(if k == 1 then lens[0] else lens[k - 2], lens[k - 1])
  }

  ghost function TablesBits(lens: seq<seq<int>>, t: nat): (s: seq<bool>)
    requires t <= |lens| && forall i :: 0 <= i < |lens| ==> 0 < |lens[i]| && lens[i][0] >= 0
  {
    if t == 0 then [] else TablesBits(lens, t - 1) + TableBits(lens[t - 1], |lens[t - 1]|)
  }

  // ---- symbols ----

  /** The code of symbol k, under the table selected for its group. */
  ghost function SymbolBits(d: Body, k: nat): (s: seq<bool>)
    requires WellFormed(d) && k < |d.syms|
  {
    GroupInRange(|d.syms|, k);
    CodeBits(d.lens[d.selectors[k / GROUP]], d.syms[k])
  }

  lemma GroupInRange(n: nat, k: nat)
    requires k < n
    ensures k / GROUP < Groups(n)
  {
  }

  ghost function DataBits(d: Body, k: nat): (s: seq<bool>)
    requires WellFormed(d) && k <= |d.syms|
  {
    if k == 0 then [] else DataBits(d, k - 1) + SymbolBits(d, k - 1)
  }

  lemma SelectorsEncodable(d: Body)
    requires WellFormed(d)
    ensures MTF.Encodable(d.nGroups, d.selectors)
  {
  }

  /** The header: pointer and mapping table. */
  ghost function MapBits(d: Body): (s: seq<bool>)
    requires WellFormed(d)
  {
    BitsOf(d.origPtr, 24) + RowsBits(d.used, 16) + CellsBits(d.used, 16)
  }

  ghost function SelectorPart(d: Body): (s: seq<bool>)
    requires WellFormed(d)
  {
    SelectorsEncodable(d);
    BitsOf(d.nGroups, 3) + BitsOf(|d.selectors|, 15) + SelectorsBits(d.nGroups, d.selectors, |d.selectors|)
  }

  ghost function TablePart(d: Body): (s: seq<bool>)
    requires WellFormed(d)
  {
    TablesBits(d.lens, d.nGroups)
  }

  ghost function BodyBits(d: Body): (s: seq<bool>)
    requires WellFormed(d)
  {
    MapBits(d) + SelectorPart(d) + TablePart(d) + DataBits(d, |d.syms|)
  }

  const MAGIC_HIGH: Word := 0x3141_5926
  const MAGIC_LOW: nat := 0x5359

  /** Block marker, checksum, the bit that says "not randomised", and the body. */
  ghost function BlockBits(crc: Word, d: Body): (s: seq<bool>)
    requires WellFormed(d)
  {
    BitsOf(MAGIC_HIGH, 32) + (BitsOf(MAGIC_LOW, 16) + (BitsOf(crc, 32) + ([false] + BodyBits(d))))
  }
}
