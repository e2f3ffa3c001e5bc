/** One block sorted, coded and written as bits. */
module BlockCompress {
  import opened Bits
  import opened Rotations
  import opened Radix
  import opened BwtTheory
  import opened SmallPointers
  import opened BitStream
  import opened MtfEncode
  import opened BlockFormat
  import opened StreamFormat
  import BlockSort
  import BlockWriter
  import opened BlockParts
  import MainCompare
  import TableChoice
  import MTF = MoveToFront

  method PutUInt32(w: Writer, u: Word)
    requires w.Valid()
    modifies w
    ensures w.Valid() && w.Written() == old(w.Written()) + BitsOf(u, 32)
  {
    hide BitsOf, Pow2, BytesBits, Buffered;
    Pow2Constants();
    FourBytes(u);
    ghost var w0 := w.Written();
    w.Put(8, u / 0x100_0000);
    w.Put(8, u / 0x1_0000 % 256);
    w.Put(8, u / 256 % 256);
    w.Put(8, u % 256);
    assert w.Written() == w0 + BitsOf(u, 32);
  }

  lemma {:induction false} FreqSum(syms: seq<int>, freq: seq<int>, v: nat)
    requires v <= |freq| && forall u :: 0 <= u < |freq| ==> freq[u] == Equal(syms, u)
    requires forall k :: 0 <= k < |syms| ==> syms[k] >= 0
    ensures TableChoice.SumFrom(freq, 0, v) == Below(syms, v)
  {
    hide Below, Equal;
    if v == 0 {
      AllAbove(syms);
    } else {
      FreqSum(syms, freq, v - 1);
      BelowNext(syms, v - 1);
    }
  }

  lemma {:induction false} AllAbove(syms: seq<int>)
    requires forall k :: 0 <= k < |syms| ==> syms[k] >= 0
    ensures Below(syms, 0) == 0
  {
    if syms != [] {
      assert forall k :: 0 <= k < |syms| - 1 ==> syms[..|syms| - 1][k] == syms[k];
      AllAbove(syms[..|syms| - 1]);
    }
  }

  /** The symbols of a column, as the coder of tables needs them. */
  lemma SymbolFacts(n: nat, xs: seq<Byte>, freq: seq<int>)
    requires MTF.Encodable(n, xs) && |freq| == 258 && |xs| <= MAX_BLOCK
    requires forall v :: 0 <= v < 258 ==> freq[v] == Equal(MTF.Symbols(n, xs), v)
    ensures var s := MTF.Symbols(n, xs);
            0 < |s| <= 900001 && TableChoice.InRange(s, n + 2) && TableChoice.SumFrom(freq, 0, n + 2) == |s| &&
            (forall k :: 0 <= k < |s| ==> (s[k] == n + 1 <==> k == |s| - 1))
  {
    hide MTF.Symbols, MTF.UndoFrom, Below, Equal;
    var s := MTF.Symbols(n, xs);
    MTF.SymbolsRoundTrip(n, xs);
    MTF.SymbolsShort(n, xs);
    SymbolsSome(n, xs);
    forall k | 0 <= k < |s| ensures 0 <= s[k] < n + 2 && (s[k] == n + 1 <==> k == |s| - 1) {
      if k < |s| - 1 { assert s[k] == s[..|s| - 1][k]; }
    }
    FreqSum(s, freq, n + 2);
    BelowEnds(s, n + 2);
  }

  lemma SymbolsSome(n: nat, xs: seq<Byte>)
    requires MTF.Encodable(n, xs)
    ensures |MTF.Symbols(n, xs)| > 0 && 0 < n <= 256
  {
  }

  /** Tables chosen for a block's symbols make a well-formed body. */
  lemma MakesBody(b: Block, f: seq<int>, used: seq<bool>, origPtr: nat, nGroups: nat, selectors: seq<Byte>,
      lens: seq<seq<int>>, freq: seq<int>)
    requires SortedRotations(b, f) && |b| <= MAX_BLOCK && AllUsed(b, used) && origPtr < |b| && f[origPtr] == 0
             && |freq| == 258
    requires var n, xs := InUse(used), Column(b, f, used);
             MTF.Encodable(n, xs) && (forall v :: 0 <= v < 258 ==> freq[v] == Equal(MTF.Symbols(n, xs), v)) &&
             |selectors| == Groups(|MTF.Symbols(n, xs)|) <= 18002
    requires 2 <= nGroups <= 6 && |lens| == nGroups && (forall t :: 0 <= t < nGroups ==>
               TableChoice.Complete(lens[t], InUse(used) + 2))
    requires forall g :: 0 <= g < |selectors| ==> selectors[g] < nGroups
    ensures var d := Body(origPtr, used, nGroups, selectors, lens, MTF.Symbols(InUse(used), Column(b, f, used)));
            Describes(d, b, f)
  {
    hide MTF.Symbols, RotSorted, IsPerm, Usable, TableChoice.Complete, Groups, Column, InUse, Equal;
    var n, xs := InUse(used), Column(b, f, used);
    SymbolFacts(n, xs, freq);
    SymbolsSome(n, xs);
    Pow2Constants();
    forall t | 0 <= t < nGroups ensures Usable(lens[t], n + 2) { TableChoice.CompleteUsable(lens[t], n + 2); }
  }

  // ---- compressing ----

  /** The pointers, word by word, in the memory that the symbols will overwrite. */
  method AsHalves(ptr: array<int>, ghost n: nat) returns (mem: array<Half>)
    requires ptr.Length == n && forall i :: 0 <= i < n ==> 0 <= ptr[i] < 0x1_0000_0000
    ensures fresh(mem) && mem.Length == 2 * n && forall i :: 0 <= i < n ==> PtrAt(mem[..], i) == ptr[i]
  {
    mem := new Half[2 * ptr.Length];
    for i := 0 to ptr.Length
      invariant forall k :: 0 <= k < i ==> PtrAt(mem[..], k) == ptr[k]
    {
      mem[2 * i] := ptr[i] % 0x1_0000;
      mem[2 * i + 1] := ptr[i] / 0x1_0000;
    }
  }

  lemma PermBounds(b: Block, f: seq<int>)
    requires SortedRotations(b, f)
    ensures IsPerm(f, |b|) && |f| == |b| && forall i :: 0 <= i < |f| ==> 0 <= f[i] < |b|
  {
  }

  ghost function StartBits(crc: Word): seq<bool> {
    BitsOf(MAGIC_HIGH, 32) + BitsOf(MAGIC_LOW, 16) + BitsOf(crc, 32) + [false]
  }

  method SendStart(w: Writer, crc: Word)
    requires w.Valid()
    modifies w
    ensures w.Valid() && w.Written() == old(w.Written()) + StartBits(crc)
  {
    hide BitsOf, Pow2, BytesBits, Buffered;
    Pow2Constants();
    ghost var w0 := w.Written();
    PutUInt32(w, MAGIC_HIGH);
    w.Put(16, MAGIC_LOW);
    PutUInt32(w, crc);
    BlockWriter.PutBit(w, false);
    assert w.Written() == w0 + StartBits(crc);
  }

  lemma StartJoins(w: seq<bool>, crc: Word, d: Body)
    requires BlockFormat.WellFormed(d)
    ensures w + StartBits(crc) + BodyBits(d) == w + BlockBits(crc, d)
  {
    hide BitsOf, BodyBits;
    var a, b, c, e, x := BitsOf(MAGIC_HIGH, 32), BitsOf(MAGIC_LOW, 16), BitsOf(crc, 32), [false], BodyBits(d);
    FiveParts(w, a, b, c, e, x);
    assert w + StartBits(crc) == w + a + b + c + e;
  }

  /** Symbols, tables and body, from the sorted pointers. */
  method SendSorted(w: Writer, ptr: array<int>, block: array<Byte>, nblock: int, inUse: array<bool>, origPtr: nat,
      ghost b: Block) returns (ghost d: Body)
    requires w.Valid() && nblock == |b| == ptr.Length <= block.Length && block[..nblock] == b && nblock <= MAX_BLOCK
    requires inUse.Length == 256 && AllUsed(b, inUse[..]) && SortedRotations(b, ptr[..]) && origPtr < nblock
             && ptr[origPtr] == 0
    modifies w
    ensures w.Valid() && Describes(d, b, ptr[..]) && d.used == inUse[..]
            && w.Written() == old(w.Written()) + BodyBits(d)
  {
    hide BitsOf, Pow2, BytesBits, Buffered, RotSorted, IsPerm, Describes, BodyBits, MTF.Symbols, Column, InUse, AllUsed;
    ghost var f, used := ptr[..], inUse[..];
    PermBounds(b, f);
    var mem := AsHalves(ptr, nblock);
    var mtfFreq := new int[258];
    var nMTF, nInUse := GenerateMTFValues(mem, block, inUse, mtfFreq, nblock, b, f);
    var syms, freq := mem[..nMTF], mtfFreq[..];
    ghost var xs := Column(b, f, used);
    UsedIs(used);
    SymbolFacts(nInUse, xs, freq);
    SymbolsSome(nInUse, xs);
    var nGroups, selectors, lens := TableChoice.ChooseTables(syms, freq, nInUse + 2);
    MakesBody(b, f, used, origPtr, nGroups, selectors, lens, freq);
    d := Body(origPtr, used, nGroups, selectors, lens, syms);
    DescribesFacts(d, b, f);
    BlockWriter.SendBody(w, origPtr, inUse, nGroups, selectors, lens, syms);
  }

  /** BZ2_compressBlock for a block that is not empty. */
  method CompressBlock(w: Writer, block: array<Byte>, nblock: int, inUse: array<bool>, crc: Word, wfact: int)
    returns (ghost d: Body, ghost f: seq<int>)
    requires w.Valid() && 0 < nblock <= MAX_BLOCK && nblock + MainCompare.N_OVERSHOOT <= block.Length
    requires inUse.Length == 256 && inUse as object != block && AllUsed(block[..nblock], inUse[..])
    modifies w, block
    ensures block[..nblock] == old(block[..nblock]) && w.Valid()
    ensures Describes(d, block[..nblock], f) && d.used == inUse[..]
    ensures w.Written() == old(w.Written()) + BlockBits(crc, d)
  {
    hide BitsOf, Pow2, BytesBits, Buffered, SortedRotations, Describes, BodyBits, StartBits, AllUsed;
    ghost var b: Block, w0 := block[..nblock], w.Written();
    var ptr, eclass, quadrant, ftab, bhtab := new int[nblock], new int[nblock],
      new int[nblock + MainCompare.N_OVERSHOOT], new int[65537], new Word[65537];
    var origPtr := BlockSort.BlockSort(ptr, eclass, block, quadrant, ftab, bhtab, nblock, wfact);
    SendStart(w, crc);
    d := SendSorted(w, ptr, block, nblock, inUse, origPtr, b);
    f := ptr[..];
    DescribesFacts(d, b, f);
    StartJoins(w0, crc, d);
  }

  lemma UsedIs(used: seq<bool>)
    requires |used| == 256
    ensures InUse(used) == UsedBelow(used, 256)
  {
  }
}
