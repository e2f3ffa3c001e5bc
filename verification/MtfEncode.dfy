/** Producing the move-to-front symbols, in the very memory that holds the sorted
    pointers they are made from. */
module MtfEncode {
  import opened Bits
  import opened Rotations
  import opened Radix
  import opened BwtTheory
  import MTF = MoveToFront

  /** Pointer i, stored as two of the 16-bit cells the symbols also use. */
  function PtrAt(mem: seq<Half>, i: int): int
    requires 0 <= i && 2 * i + 1 < |mem|
  {
    TwoHalves(mem[2 * i], mem[2 * i + 1])
  }

  /** How many bytes below c occur in the block. */
  ghost function UsedBelow(used: seq<bool>, c: int): (n: nat)
    requires 0 <= c <= |used|
    ensures n <= c
  {
    if c == 0 then 0 else UsedBelow(used, c - 1) + (if used[c - 1] then 1 else 0)
  }

  lemma {:induction false} UsedBelowMono(used: seq<bool>, c: int, d: int)
    requires 0 <= c <= d <= |used|
    ensures UsedBelow(used, c) <= UsedBelow(used, d)
    ensures c < d && used[c] ==> UsedBelow(used, c) < UsedBelow(used, d)
    decreases d
  {
    if c < d { UsedBelowMono(used, c, d - 1); }
  }

  /** Every byte of the block is marked in use. */
  ghost predicate AllUsed(b: Block, used: seq<bool>) {
    |used| == 256 && forall i :: 0 <= i < |b| ==> used[b[i]]
  }

  /** The last column in terms of the bytes in use. */
  ghost function Column(b: Block, f: seq<int>, used: seq<bool>): (xs: seq<Byte>)
    requires IsPerm(f, |b|) && AllUsed(b, used)
    ensures |xs| == |b| && forall i :: 0 <= i < |b| ==> xs[i] == UsedBelow(used, LastColumn(b, f)[i])
  {
    seq(|b|, i requires 0 <= i < |b| => (UsedBelow(used, LastColumn(b, f)[i]) as int))
  }

  lemma ColumnEncodable(b: Block, f: seq<int>, used: seq<bool>)
    requires IsPerm(f, |b|) && AllUsed(b, used)
    ensures MTF.Encodable(UsedBelow(used, 256), Column(b, f, used))
  {
    var xs := Column(b, f, used);
    forall i | 0 <= i < |xs| ensures xs[i] < UsedBelow(used, 256) {
      UsedBelowMono(used, LastColumn(b, f)[i], 256);
    }
    assert xs[0] < UsedBelow(used, 256);
  }

  method MakeMaps(inUse: array<bool>, unseqToSeq: array<Byte>) returns (nInUse: nat)
    requires inUse.Length == unseqToSeq.Length == 256 && inUse as object != unseqToSeq
    modifies unseqToSeq
    ensures nInUse == UsedBelow(inUse[..], 256)
    ensures forall c :: 0 <= c < 256 && inUse[c] ==> unseqToSeq[c] == UsedBelow(inUse[..], c)
  {
    ghost var used := inUse[..];
    nInUse := 0;
    for i := 0 to 256
      invariant nInUse == UsedBelow(used, i) && inUse[..] == used
      invariant forall c :: 0 <= c < i && used[c] ==> unseqToSeq[c] == UsedBelow(used, c)
    {
      if inUse[i] {
        unseqToSeq[i] := nInUse;
        nInUse := nInUse + 1;
      }
    }
  }

  /** Symbols written, counted and still clear of the pointers from k on. */
  ghost predicate Written(mem: seq<Half>, freq: seq<int>, out: seq<int>, f: seq<int>, k: int) {
    && |out| <= |mem| && 2 * |f| <= |mem| && 0 <= k <= |f| && |freq| == 258
    && (forall p :: 0 <= p < |out| ==> mem[p] == out[p])
    && (forall i :: k <= i < |f| ==> PtrAt(mem, i) == f[i])
    && (forall v :: 0 <= v < 258 ==> freq[v] == Equal(out, v))
  }

  lemma WriteOne(mem: seq<Half>, freq: seq<int>, out: seq<int>, f: seq<int>, k: int, sym: Half)
    requires Written(mem, freq, out, f, k) && |out| < 2 * k && sym < 258
    ensures |out| < |mem| && Written(mem[|out| := sym], freq[sym := freq[sym] + 1], out + [sym], f, k)
  {
    assert (out + [sym])[..|out|] == out;
  }

  lemma WrittenLater(mem: seq<Half>, freq: seq<int>, out: seq<int>, f: seq<int>, k: int)
    requires Written(mem, freq, out, f, k) && k < |f|
    ensures Written(mem, freq, out, f, k + 1) && PtrAt(mem, k) == f[k]
  {
  }

  lemma WrittenSizes(mem: seq<Half>, freq: seq<int>, out: seq<int>, f: seq<int>, k: int)
    requires Written(mem, freq, out, f, k)
    ensures |freq| == 258 && |out| <= |mem| && 0 <= k <= |f| && 2 * |f| <= |mem|
    ensures mem[..|out|] == out
    ensures forall v :: 0 <= v < 258 ==> freq[v] == Equal(out, v)
  {
  }

  method PutSym(mem: array<Half>, mtfFreq: array<int>, wr: nat, sym: Half, ghost out: seq<int>, ghost f: seq<int>,
      ghost k: int)
    requires mem as object != mtfFreq && wr == |out| < 2 * k && sym < 258
    requires Written(mem[..], mtfFreq[..], out, f, k)
    modifies mem, mtfFreq
    ensures Written(mem[..], mtfFreq[..], out + [sym], f, k)
  {
    hide Written;
    ghost var m0, q0 := mem[..], mtfFreq[..];
    WrittenSizes(m0, q0, out, f, k);
    WriteOne(m0, q0, out, f, k, sym);
    mem[wr] := sym;
    mtfFreq[sym] := mtfFreq[sym] + 1;
    assert mem[..] == m0[|out| := sym] && mtfFreq[..] == q0[sym := q0[sym] + 1];
  }

  /** Writes a pending run of z front items. */
  method PutRun(mem: array<Half>, mtfFreq: array<int>, wr0: nat, z: nat, ghost out: seq<int>, ghost f: seq<int>,
      ghost k: int) returns (wr: nat)
    requires mem as object != mtfFreq && wr0 == |out| && z > 0 && |out| + |MTF.RunSyms(z)| <= 2 * k
    requires Written(mem[..], mtfFreq[..], out, f, k)
    modifies mem, mtfFreq
    ensures Written(mem[..], mtfFreq[..], out + MTF.RunSyms(z), f, k) && wr == |out| + |MTF.RunSyms(z)|
  {
    hide Written;
    wr := wr0;
    ghost var done: seq<int> := out;
    var zPend: nat := z - 1;
    while true
      invariant wr == |done| && Written(mem[..], mtfFreq[..], done, f, k)
      invariant done + MTF.RunSyms(zPend + 1) == out + MTF.RunSyms(z)
      decreases zPend
    {
      var sym := if zPend % 2 == 1 then MTF.RUNB else MTF.RUNA;
      assert MTF.RunSyms(zPend + 1) == [sym] + MTF.RunSyms(zPend / 2);
      assert |done + MTF.RunSyms(zPend + 1)| <= 2 * k;
      PutSym(mem, mtfFreq, wr, sym, done, f, k);
      wr := wr + 1;
      done := done + [sym];
      if zPend < 2 { break; }
      zPend := (zPend - 2) / 2;
    }
    assert done == out + MTF.RunSyms(z);
  }

  /** Takes ll_i, which is not at the front, to the front, and says where it was. */
  method TakeToFront(yy: array<Byte>, ll_i: Byte, ghost n: nat) returns (j: nat)
    requires 0 < n <= yy.Length && ll_i in yy[..n] && yy[0] != ll_i
    modifies yy
    ensures j == MTF.IndexOf(old(yy[..n]), ll_i) && 1 <= j < n
    ensures yy[..n] == MTF.Front(old(yy[..n]), j)
  {
    ghost var y0 := yy[..n];
    ghost var at := MTF.IndexOf(y0, ll_i);
    assert y0[at] == ll_i;
    var rtmp := yy[1];
    yy[1] := yy[0];
    j := 1;
    while ll_i != rtmp
      invariant 1 <= j <= at && rtmp == y0[j]
      invariant forall k :: 1 <= k <= j ==> yy[k] == y0[k - 1]
      invariant forall k :: j < k < n ==> yy[k] == y0[k]
      decreases at - j
    {
      j := j + 1;
      var rtmp2 := rtmp;
      rtmp := yy[j];
      yy[j] := rtmp2;
    }
    assert j == at;
    yy[0] := rtmp;
    assert yy[..n] == MTF.Front(y0, j);
  }

  lemma Bounds(n: nat, xs: seq<Byte>, i: int)
    requires MTF.Encodable(n, xs) && 0 <= i <= |xs|
    ensures MTF.Encodable(n, xs[..i])
    ensures var e := MTF.EncAll(n, xs[..i]); |e.out| + e.pend <= i && |e.out| + |MTF.RunSyms(e.pend)| <= i
  {
    MTF.SymbolsShort(n, xs[..i]);
    MTF.RunLength(MTF.EncAll(n, xs[..i]).pend);
  }

  lemma NextItem(n: nat, xs: seq<Byte>, i: int)
    requires MTF.Encodable(n, xs) && 0 <= i < |xs|
    ensures MTF.Encodable(n, xs[..i]) && MTF.Encodable(n, xs[..i + 1])
    ensures var e := MTF.EncAll(n, xs[..i]); xs[i] in e.list && MTF.EncAll(n, xs[..i + 1]) == MTF.EncStep(e, xs[i])
    ensures |MTF.EncAll(n, xs[..i]).list| == n
  {
    assert xs[..i + 1][..i] == xs[..i];
    MTF.EncListing(n, MTF.EncAll(n, xs[..i]), xs[i]);
  }

  /** One item: counted into the pending run, or written as its list position. */
  method PutItem(mem: array<Half>, mtfFreq: array<int>, yy: array<Byte>, wr0: nat, zPend0: nat, ll_i: Byte,
                 ghost n: nat, ghost xs: seq<Byte>, ghost f: seq<int>, ghost i: int)
    returns (wr: nat, zPend: nat)
    requires mem as object != mtfFreq && mem as object != yy && mtfFreq as object != yy
    requires 0 <= i < |xs| && ll_i == xs[i] && Going(n, xs, i, yy[..], wr0, zPend0, mem[..], mtfFreq[..], f, i + 1)
    modifies mem, mtfFreq, yy
    ensures Going(n, xs, i + 1, yy[..], wr, zPend, mem[..], mtfFreq[..], f, i + 1)
  {
    hide Written, MTF.RunSyms, MTF.EncAll, MTF.Listing;
    ghost var e := MTF.EncAll(n, xs[..i]);
    NextItem(n, xs, i);
    Bounds(n, xs, i);
    wr, zPend := wr0, zPend0;
    if yy[0] == ll_i {
      zPend := zPend + 1;
    } else {
      if zPend > 0 {
        wr := PutRun(mem, mtfFreq, wr, zPend, e.out, f, i + 1);
        zPend := 0;
      } else {
        NoRun();
        assert e.out + MTF.RunSyms(e.pend) == e.out;
      }
      var j := TakeToFront(yy, ll_i, n);
      PutSym(mem, mtfFreq, wr, j + 1, e.out + MTF.RunSyms(e.pend), f, i + 1);
      wr := wr + 1;
    }
  }

  lemma NoRun()
    ensures MTF.RunSyms(0) == []
  {
  }

  lemma StartFacts(n: nat, xs: seq<Byte>)
    requires MTF.Encodable(n, xs)
    ensures MTF.Encodable(n, xs[..0]) && MTF.EncAll(n, xs[..0]) == MTF.Enc(MTF.Identity(n), 0, [])
  {
  }

  lemma WrittenStart(mem: seq<Half>, freq: seq<int>, f: seq<int>)
    requires 2 * |f| <= |mem| && |freq| == 258 && (forall i :: 0 <= i < |f| ==> PtrAt(mem, i) == f[i])
             && forall v :: 0 <= v < 258 ==> freq[v] == 0
    ensures Written(mem, freq, [], f, 0)
  {
  }

  lemma ItemAt(b: Block, f: seq<int>, used: seq<bool>, i: int, j: int)
    requires IsPerm(f, |b|) && AllUsed(b, used) && 0 <= i < |b| && j == Back(|b|, f[i], 1)
    ensures used[b[j]] && Column(b, f, used)[i] == UsedBelow(used, b[j])
  {
  }

  ghost predicate Mapped(used: seq<bool>, maps: seq<Byte>) {
    |used| == |maps| == 256 && forall c :: 0 <= c < 256 && used[c] ==> maps[c] == UsedBelow(used, c)
  }

  /** The loop has dealt with the first i items. */
  ghost predicate Going(n: nat, xs: seq<Byte>, i: int, yy: seq<Byte>, wr: nat, zPend: nat, mem: seq<Half>,
      freq: seq<int>, f: seq<int>, k: int)
  {
    && MTF.Encodable(n, xs) && 0 <= i <= |xs| == |f| && |yy| == 256
    && var e := MTF.EncAll(n, xs[..i]);
       yy[..n] == e.list && zPend == e.pend && wr == |e.out| && Written(mem, freq, e.out, f, k)
  }

  lemma GoingStart(n: nat, xs: seq<Byte>, yy: seq<Byte>, mem: seq<Half>, freq: seq<int>, f: seq<int>)
    requires MTF.Encodable(n, xs) && |xs| == |f| && |yy| == 256 && (forall k :: 0 <= k < n ==> yy[k] == k)
    requires Written(mem, freq, [], f, 0)
    ensures Going(n, xs, 0, yy, 0, 0, mem, freq, f, 0)
  {
    hide Written;
    StartFacts(n, xs);
    assert yy[..n] == MTF.Identity(n);
  }

  /** At the i-th item at most i symbols have been written, so pointer i is still there. */
  lemma GoingRead(n: nat, xs: seq<Byte>, i: int, yy: seq<Byte>, wr: nat, zPend: nat, mem: seq<Half>, freq: seq<int>,
      f: seq<int>)
    requires Going(n, xs, i, yy, wr, zPend, mem, freq, f, i) && i < |f|
    ensures wr <= i && 2 * |f| <= |mem| && PtrAt(mem, i) == f[i]
    ensures Going(n, xs, i, yy, wr, zPend, mem, freq, f, i + 1)
  {
    hide Written;
    Bounds(n, xs, i);
    var e := MTF.EncAll(n, xs[..i]);
    WrittenLater(mem, freq, e.out, f, i);
    WrittenSizes(mem, freq, e.out, f, i);
  }

  method PutAll(mem: array<Half>, block: array<Byte>, unseqToSeq: array<Byte>, mtfFreq: array<int>, yy: array<Byte>,
      nblock: int,
                ghost b: Block, ghost f: seq<int>, ghost used: seq<bool>)
    returns (wr: nat, zPend: nat)
    requires mem as object != mtfFreq && mem as object != block && mem as object != unseqToSeq && mem as object != yy
    requires mtfFreq as object != block && mtfFreq as object != unseqToSeq && mtfFreq as object != yy && yy != block
             && yy != unseqToSeq
    requires nblock == |b| <= block.Length && block[..nblock] == b && IsPerm(f, nblock) && AllUsed(b, used)
             && Mapped(used, unseqToSeq[..])
    requires Going(UsedBelow(used, 256), Column(b, f, used), 0, yy[..], 0, 0, mem[..], mtfFreq[..], f, 0)
    modifies mem, mtfFreq, yy
    ensures Going(UsedBelow(used, 256), Column(b, f, used), nblock, yy[..], wr, zPend, mem[..], mtfFreq[..], f, nblock)
  {
    hide IsPerm, AllUsed, UsedBelow, Going;
    ghost var n, xs, maps := UsedBelow(used, 256), Column(b, f, used), unseqToSeq[..];
    wr, zPend := 0, 0;
    for i := 0 to nblock
      invariant Going(n, xs, i, yy[..], wr, zPend, mem[..], mtfFreq[..], f, i)
      invariant block[..nblock] == b && unseqToSeq[..] == maps
    {
      PermRange(f, nblock, i);
      GoingRead(n, xs, i, yy[..], wr, zPend, mem[..], mtfFreq[..], f);
      assert wr <= i;
      var j := PtrAt(mem[..], i) - 1;
      if j < 0 { j := j + nblock; }
      assert j == Back(|b|, f[i], 1) && block[j] == b[j];
      ItemAt(b, f, used, i, j);
      var ll_i := unseqToSeq[block[j]];
      assert ll_i == maps[b[j]];
      wr, zPend := PutItem(mem, mtfFreq, yy, wr, zPend, ll_i, n, xs, f, i);
    }
  }

  /** The last run and the end-of-block symbol. */
  method PutEnd(mem: array<Half>, mtfFreq: array<int>, wr0: nat, zPend: nat, nInUse: nat, ghost xs: seq<Byte>,
      ghost f: seq<int>, ghost yy: seq<Byte>) returns (nMTF: nat)
    requires mem as object != mtfFreq && |f| == |xs| > 0
    requires Going(nInUse, xs, |xs|, yy, wr0, zPend, mem[..], mtfFreq[..], f, |xs|)
    modifies mem, mtfFreq
    ensures nMTF <= |xs| + 1 && nMTF <= mem.Length && mem[..nMTF] == MTF.Symbols(nInUse, xs)
    ensures forall v :: 0 <= v < 258 ==> mtfFreq[v] == Equal(mem[..nMTF], v)
  {
    hide Written, MTF.RunSyms, MTF.EncAll, MTF.Listing, Equal;
    assert xs[..|xs|] == xs;
    ghost var e := MTF.EncAll(nInUse, xs);
    Bounds(nInUse, xs, |xs|);
    var wr := wr0;
    if zPend > 0 {
      wr := PutRun(mem, mtfFreq, wr, zPend, e.out, f, |xs|);
    } else {
      NoRun();
      assert e.out + MTF.RunSyms(e.pend) == e.out;
    }
    PutSym(mem, mtfFreq, wr, nInUse + 1, e.out + MTF.RunSyms(e.pend), f, |xs|);
    WrittenSizes(mem[..], mtfFreq[..], MTF.Symbols(nInUse, xs), f, |xs|);
    nMTF := wr + 1;
  }

  /** The symbols of the block's last column end up in the low cells of the memory
      the pointers were in; no pointer is overwritten before it has been read. */
  method GenerateMTFValues(mem: array<Half>, block: array<Byte>, inUse: array<bool>, mtfFreq: array<int>, nblock: int,
      ghost b: Block, ghost f: seq<int>)
    returns (nMTF: nat, nInUse: nat)
    requires mem as object != mtfFreq && block as object != mem && block as object != mtfFreq && inUse as object != mem
             && inUse as object != mtfFreq
    requires nblock == |b| <= block.Length && block[..nblock] == b && mem.Length == 2 * nblock && inUse.Length == 256
             && mtfFreq.Length == 258
    requires IsPerm(f, nblock) && AllUsed(b, inUse[..])
    requires forall i :: 0 <= i < nblock ==> PtrAt(mem[..], i) == f[i]
    modifies mem, mtfFreq
    ensures nInUse == UsedBelow(inUse[..], 256) && MTF.Encodable(nInUse, Column(b, f, inUse[..]))
    ensures nMTF <= nblock + 1 && nMTF <= mem.Length && mem[..nMTF] == MTF.Symbols(nInUse, Column(b, f, inUse[..]))
    ensures forall v :: 0 <= v < 258 ==> mtfFreq[v] == Equal(mem[..nMTF], v)
  {
    hide Written, Going, IsPerm, AllUsed, UsedBelow, MTF.Encodable, Equal, MTF.Symbols;
    var unseqToSeq := new Byte[256];
    nInUse := MakeMaps(inUse, unseqToSeq);
    ghost var used, m0 := inUse[..], mem[..];
    ghost var maps := unseqToSeq[..];
    assert Mapped(used, maps) by {
      forall c | 0 <= c < 256 && used[c] ensures maps[c] == UsedBelow(used, c) { assert inUse[c]; }
    }
    PermRange(f, nblock, 0);
    ghost var n, xs := nInUse, Column(b, f, used);
    ColumnEncodable(b, f, used);
    EncodableSize(n, xs);
    var yy := new Byte[256];
    for i := 0 to 258
      invariant forall v :: 0 <= v < i ==> mtfFreq[v] == 0
      invariant mem[..] == m0 && inUse[..] == used && block[..nblock] == b && unseqToSeq[..] == maps
    {
      mtfFreq[i] := 0;
    }
    WrittenStart(mem[..], mtfFreq[..], f);
    ghost var q0 := mtfFreq[..];
    for i := 0 to nInUse
      invariant forall k :: 0 <= k < i ==> yy[k] == k
      invariant mtfFreq[..] == q0 && mem[..] == m0 && inUse[..] == used && block[..nblock] == b
                && unseqToSeq[..] == maps
    {
      yy[i] := i;
    }
    GoingStart(n, xs, yy[..], mem[..], mtfFreq[..], f);
    var wr, zPend := PutAll(mem, block, unseqToSeq, mtfFreq, yy, nblock, b, f, used);
    nMTF := PutEnd(mem, mtfFreq, wr, zPend, nInUse, xs, f, yy[..]);
  }

  lemma PermRange(f: seq<int>, n: int, i: int)
    requires n >= 0 && IsPerm(f, n) && 0 <= i < n
    ensures |f| == n && 0 <= f[i] < n
  {
  }

  lemma EncodableSize(n: nat, xs: seq<Byte>)
    requires MTF.Encodable(n, xs)
    ensures 0 < n <= 256
  {
  }
}
