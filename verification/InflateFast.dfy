/** inflate_fast: no checks for input or output inside an item, and matches that may come
    from the window, from around its end, and from the output just written. */
module InflateFast {
  import opened Bits
  import opened Sequences
  import opened Reversal
  import opened InflateTable
  import opened LzTokens
  import opened InflateItems
  import opened InflateSource

  // ---- reading one item ----

  lemma LookAhead(kind: Kind, tab: seq<Entry>, root: nat, r: BitSource)
    requires Sound(kind, tab, root) && r.Valid() && r.bits >= 15
    ensures Lands(kind, tab, root, r.Rest()) && Low(r.hold, root) == Low(r.Rest(), root) && Low(r.hold, root) < |tab|
  {
    hide Lands;
    LandsAt(kind, tab, root, r.Rest());
    r.Peek(root);
    LandsInside(kind, tab, root, r.Rest());
  }

  lemma LandsInside(kind: Kind, tab: seq<Entry>, root: nat, x: nat)
    requires Lands(kind, tab, root, x)
    ensures Low(x, root) < |tab|
  {
  }

  /** A code of at most 15 bits, through the root table and perhaps a sub-table. */
  method ReadCode(r: BitSource, kind: Kind, tab: seq<Entry>, root: nat) returns (e: Entry)
    requires Sound(kind, tab, root) && r.Valid() && r.bits >= 15
    modifies r
    ensures r.Valid() && r.nextIn == old(r.nextIn)
    ensures e == Lookup(tab, root, old(r.Rest())).0 && r.used == old(r.used) + Lookup(tab, root, old(r.Rest())).1
            && Lookup(tab, root, old(r.Rest())).1 <= 15
    ensures r.Rest() == High(old(r.Rest()), Lookup(tab, root, old(r.Rest())).1)
    ensures r.bits == old(r.bits) - Lookup(tab, root, old(r.Rest())).1
  {
    hide Low, High, Sound, SymbolEntry, EndsAt, BitSource.Valid, BitSource.Rest;
    LookAhead(kind, tab, root, r);
    ghost var x := r.Rest();
    e := tab[Low(r.hold, root)];
    r.Drop(e.bits);
    if e.op != 0 && !Has(e.op, 16) && !Has(e.op, 64) {
      SmallOp(kind, tab, root, x);
      r.Peek(e.op);
      var l := e;
      e := tab[l.val + Low(r.hold, l.op)];
      r.Drop(e.bits);
      HighHigh(x, l.bits, e.bits);
    } else {
      NotLink(kind, tab, root, x);
    }
  }

  /** As the decoder tells a link from an end: the order of its tests does not matter. */
  lemma SmallOp(kind: Kind, tab: seq<Entry>, root: nat, x: nat)
    requires Lands(kind, tab, root, x)
    requires var e := tab[Low(x, root)]; e.op != 0 && !Has(e.op, 16) && !Has(e.op, 64)
    ensures IsLink(tab[Low(x, root)])
  {
    if !IsLink(tab[Low(x, root)]) { EndOps(kind, tab[Low(x, root)]); }
  }

  lemma NotLink(kind: Kind, tab: seq<Entry>, root: nat, x: nat)
    requires Lands(kind, tab, root, x)
    requires var e := tab[Low(x, root)]; !(e.op != 0 && !Has(e.op, 16) && !Has(e.op, 64))
    ensures !IsLink(tab[Low(x, root)])
  {
  }

  lemma EndOps(kind: Kind, e: Entry)
    requires EndsAt(kind, e)
    ensures e.op == 0 || Has(e.op, 16) || Has(e.op, 64)
  {
    if e.op != 64 {
      var s: nat :| s < Symbols(kind) && IsEntry(kind, e, s);
      match kind
      case CODES =>
      case LENS =>
        LengthEntry(e, 0);
        OpBits(e.op);
      case DISTS =>
        DistanceEntry(e, 0);
        OpBits(e.op);
    }
  }

  /** Two more bytes if fewer than a code may need are held. */
  method Fill(r: BitSource)
    requires r.Valid() && r.bits <= 30 && (r.bits < 15 ==> r.nextIn + 2 <= |r.input|)
    modifies r
    ensures r.Valid() && 15 <= r.bits <= 30 && r.used == old(r.used) && r.Rest() == old(r.Rest())
    ensures r.nextIn == old(r.nextIn) + (if old(r.bits) < 15 then 2 else 0)
  {
    if r.bits < 15 {
      r.PullByte();
      r.PullByte();
    }
  }

  /** The extra bits of a base, one byte more at a time. */
  method ReadExtra(r: BitSource, op: nat) returns (v: nat)
    requires r.Valid() && op <= 13 && r.bits <= 30 && (r.bits < op ==>
                                                         r.nextIn + (if r.bits + 8 < op then 2 else 1) <= |r.input|)
    modifies r
    ensures r.Valid() && v == Low(old(r.Rest()), op) && r.Rest() == High(old(r.Rest()), op)
            && r.used == old(r.used) + op && r.bits <= 30
    ensures r.nextIn == old(r.nextIn) + (if old(r.bits) < op then (if old(r.bits) + 8 < op then 2 else 1) else 0)
  {
    hide Low, High;
    if r.bits < op {
      r.PullByte();
      if r.bits < op { r.PullByte(); }
    }
    r.Peek(op);
    v := Low(r.hold, op);
    r.Drop(op);
  }

  /** One item: at most six bytes of input, whatever it is. */
  method ReadItem(r: BitSource, t: Codes) returns (item: Item)
    requires SoundCodes(t) && r.Valid() && r.bits <= 30 && r.nextIn + 6 <= |r.input|
    modifies r
    ensures r.Valid() && r.bits <= 30 && r.nextIn <= old(r.nextIn) + 6
    ensures item == NextItem(t, old(r.Rest())).0 && r.used == old(r.used) + NextItem(t, old(r.Rest())).1
    ensures r.Rest() == High(old(r.Rest()), NextItem(t, old(r.Rest())).1)
  {
    hide BitSource.Valid, BitSource.Rest, Lookup, Low, High, Sound, Has, DistanceAt, Extended;
    ghost var x := r.Rest();
    LengthAt(t, x);
    r.Balance();
    Fill(r);
    var e := ReadCode(r, LENS, t.len, t.lenBits);
    if e.op == 0 { return Literal(e.val % 256); }
    if Has(e.op, 16) {
      r.Balance();
      item := ReadPair(r, t, e, x, Lookup(t.len, t.lenBits, x).1, old(r.nextIn));
      return;
    }
    OpBits(e.op);
    item := if Has(e.op, 64) && Has(e.op, 32) then EndBlock else Invalid;
  }

  /** The rest of a pair: the length's extra bits, then the distance. */
  method ReadPair(r: BitSource, t: Codes, e: Entry, ghost x: nat, ghost n: nat, ghost from: nat) returns (item: Item)
    requires SoundCodes(t) && r.Valid() && r.bits <= 30 && 16 <= e.op <= 21 && n <= 15 && r.Rest() == High(x, n)
    requires from + 6 <= |r.input| && r.nextIn <= from + 2 && 8 * (r.nextIn - from) <= r.bits + n
    modifies r
    ensures r.Valid() && r.bits <= 30 && r.nextIn <= from + 6
    ensures item == DistanceAt(t, x, Extended(e, High(x, n)), n + e.op % 16).0
    ensures r.used == old(r.used) - n + DistanceAt(t, x, Extended(e, High(x, n)), n + e.op % 16).1
    ensures r.Rest() == High(x, DistanceAt(t, x, Extended(e, High(x, n)), n + e.op % 16).1)
  {
    hide BitSource.Valid, BitSource.Rest, Lookup, Low, High, Sound, Has;
    var count := e.val;
    r.Balance();
    var v := ReadExtra(r, e.op % 16);
    count := count + v;
    ghost var n1 := n + e.op % 16;
    HighHigh(x, n, e.op % 16);
    DistAt(t, High(x, n1));
    r.Balance();
    Fill(r);
    r.Balance();
    var f := ReadCode(r, DISTS, t.dist, t.distBits);
    ghost var m := Lookup(t.dist, t.distBits, High(x, n1)).1;
    HighHigh(x, n1, m);
    if Has(f.op, 16) {
      OpBits(f.op);
      r.Balance();
      var back := f.val;
      v := ReadExtra(r, f.op % 16);
      HighHigh(x, n1 + m, f.op % 16);
      r.Balance();
      item := Copy(back + v, count);
    } else {
      item := Invalid;
    }
  }

  // ---- copying a match ----

  /** The window holds the last whave bytes of the history, the newest just before wnext. */
  ghost predicate WindowHolds(window: seq<Byte>, wsize: nat, whave: nat, wnext: nat, H: seq<Byte>) {
    && whave <= wsize == |window| && wnext <= wsize && whave <= |H|
    && forall back :: 1 <= back <= whave ==> window[Place(wsize, wnext, back)] == H[|H| - back]
  }

  function Place(wsize: nat, wnext: nat, back: nat): nat
    requires back <= wsize && wnext <= wsize
  {
    if back <= wnext then wnext - back else wsize + wnext - back
  }

  /** The byte at j, counted from where this call's output began; before that, the history. */
  ghost function ByteOf(out: seq<Byte>, beg: nat, H: seq<Byte>, j: int): Byte
    requires beg - |H| <= j < |out| && beg <= |out|
  {
    if j >= beg then out[j] else H[|H| - (beg - j)]
  }

  /** From p0 to p, every byte repeats the one dist before it. */
  ghost predicate Copied(out: seq<Byte>, beg: nat, H: seq<Byte>, dist: nat, p0: nat, p: nat) {
    && beg <= p0 <= p <= |out| && 1 <= dist <= p0 - beg + |H|
    && forall i :: p0 <= i < p ==> out[i] == ByteOf(out, beg, H, i - dist)
  }

  lemma CopiedMore(out: seq<Byte>, out': seq<Byte>, beg: nat, H: seq<Byte>, dist: nat, p0: nat, p: nat, p': nat)
    requires Copied(out, beg, H, dist, p0, p) && SameBefore(out, out', p) && p <= p' <= |out'|
    requires forall i :: p <= i < p' ==> out'[i] == ByteOf(out', beg, H, i - dist)
    ensures Copied(out', beg, H, dist, p0, p')
  {
    forall i | p0 <= i < p' ensures out'[i] == ByteOf(out', beg, H, i - dist) {
      if i < p { assert out[i] == ByteOf(out, beg, H, i - dist); }
    }
  }

  /** Bytes from the window, three to a round. */
  method FromWindow(out: array<Byte>, pos: nat, window: array<Byte>, at: nat, n: nat)
    requires out != window && pos + n <= out.Length && at + n <= window.Length
    modifies out
    ensures forall k :: pos <= k < pos + n ==> out[k] == window[at + (k - pos)]
    ensures forall k :: 0 <= k < out.Length && !(pos <= k < pos + n) ==> out[k] == old(out[k])
  {
    var i := 0;
    while i < n
      invariant 0 <= i <= n
      invariant forall k :: pos <= k < pos + i ==> out[k] == window[at + (k - pos)]
      invariant forall k :: 0 <= k < out.Length && !(pos <= k < pos + i) ==> out[k] == old(out[k])
    {
      out[pos + i] := window[at + i];
      i := i + 1;
    }
  }

  /** Bytes from the output itself, oldest first, so that a copy may read what it wrote. */
  method FromOutput(out: array<Byte>, pos: nat, dist: nat, n: nat)
    requires 1 <= dist <= pos && pos + n <= out.Length
    modifies out
    ensures forall k :: pos <= k < pos + n ==> out[k] == out[k - dist]
    ensures forall k :: 0 <= k < out.Length && !(pos <= k < pos + n) ==> out[k] == old(out[k])
  {
    var p, len := pos, n;
    while len > 2
      invariant p + len == pos + n && pos <= p && 0 <= len
      invariant forall k :: pos <= k < p ==> out[k] == out[k - dist]
      invariant forall k :: 0 <= k < out.Length && !(pos <= k < p) ==> out[k] == old(out[k])
      decreases len
    {
      out[p] := out[p - dist];
      out[p + 1] := out[p + 1 - dist];
      out[p + 2] := out[p + 2 - dist];
      p, len := p + 3, len - 3;
    }
    if len > 0 {
      out[p] := out[p - dist];
      if len > 1 { out[p + 1] := out[p + 1 - dist]; }
    }
  }

  /** A stretch of the window is a stretch of the history. */
  method TakeWindow(out: array<Byte>, pos: nat, window: array<Byte>, at: nat, n: nat, wsize: nat, whave: nat,
      wnext: nat, ghost back: nat,
      ghost beg: nat, ghost H: seq<Byte>, ghost dist: nat, ghost p0: nat)
    requires out != window && pos + n <= out.Length && WindowHolds(window[..], wsize, whave, wnext, H)
    requires n <= back <= whave && pos - dist == beg - back && Copied(out[..], beg, H, dist, p0, pos)
    requires n > 0 ==> at == Place(wsize, wnext, back) && (back <= wnext || wnext <= back - n)
    requires at + n <= window.Length
    modifies out
    ensures Copied(out[..], beg, H, dist, p0, pos + n) && SameBefore(old(out[..]), out[..], pos)
    ensures forall k :: pos + n <= k < out.Length ==> out[k] == old(out[k])
  {
    ghost var o := out[..];
    FromWindow(out, pos, window, at, n);
    forall i | pos <= i < pos + n ensures out[..][i] == ByteOf(out[..], beg, H, i - dist) {
      var b := back - (i - pos);
      assert window[..][Place(wsize, wnext, b)] == H[|H| - b];
    }
    CopiedMore(o, out[..], beg, H, dist, p0, pos, pos + n);
  }

  method TakeOutput(out: array<Byte>, pos: nat, n: nat, beg: nat, ghost H: seq<Byte>, dist: nat, ghost p0: nat)
    requires pos + n <= out.Length && (n > 0 ==> beg + dist <= pos) && Copied(out[..], beg, H, dist, p0, pos)
    modifies out
    ensures Copied(out[..], beg, H, dist, p0, pos + n) && SameBefore(old(out[..]), out[..], pos)
    ensures forall k :: pos + n <= k < out.Length ==> out[k] == old(out[k])
  {
    if n == 0 { return; }
    ghost var o := out[..];
    FromOutput(out, pos, dist, n);
    CopiedMore(o, out[..], beg, H, dist, p0, pos, pos + n);
  }

  /** All ways a match can lie: in the output, in the window before the write position, after it,
      round the window's end, and from there into the output. */
  method CopyMatch(out: array<Byte>, pos: nat, beg: nat, dist: nat, length: nat, window: array<Byte>, wsize: nat,
      whave: nat, wnext: nat, ghost H: seq<Byte>)
    requires out != window && WindowHolds(window[..], wsize, whave, wnext, H)
    requires beg <= pos && pos + length <= out.Length && 1 <= dist <= pos - beg + whave
    modifies out
    ensures Copied(out[..], beg, H, dist, pos, pos + length) && SameBefore(old(out[..]), out[..], pos)
    ensures forall k :: pos + length <= k < out.Length ==> out[k] == old(out[k])
  {
    var op := pos - beg;
    if dist <= op {
      TakeOutput(out, pos, length, beg, H, dist, pos);
      return;
    }
    op := dist - op;
    var p, len := pos, length;
    if wnext == 0 {
      var n := if op < len then op else len;
      TakeWindow(out, p, window, wsize - op, n, wsize, whave, wnext, op, beg, H, dist, pos);
      p, len := p + n, len - n;
    } else if wnext < op {
      var n := if op - wnext < len then op - wnext else len;
      TakeWindow(out, p, window, wsize + wnext - op, n, wsize, whave, wnext, op, beg, H, dist, pos);
      p, len := p + n, len - n;
      n := if wnext < len then wnext else len;
      if n > 0 { TakeWindow(out, p, window, 0, n, wsize, whave, wnext, wnext, beg, H, dist, pos); }
      p, len := p + n, len - n;
    } else {
      var n := if op < len then op else len;
      TakeWindow(out, p, window, wnext - op, n, wsize, whave, wnext, op, beg, H, dist, pos);
      p, len := p + n, len - n;
    }
    TakeOutput(out, p, len, beg, H, dist, pos);
  }

  // ---- what a copy means ----

  /** What has been decoded: the history, and the output since. */
  ghost function Data(out: seq<Byte>, beg: nat, pos: nat, H: seq<Byte>): seq<Byte>
    requires beg <= pos <= |out|
  {
    H + out[beg..pos]
  }

  lemma CopiedIs(out0: seq<Byte>, out: seq<Byte>, beg: nat, H: seq<Byte>, dist: nat, pos: nat, len: nat)
    requires pos + len <= |out| && Copied(out, beg, H, dist, pos, pos + len) && SameBefore(out0, out, pos)
    ensures Data(out, beg, pos + len, H) == CopyBack(Data(out0, beg, pos, H), dist, len)
  {
    var d := Data(out, beg, pos + len, H);
    var n := |H| + pos - beg;
    assert Data(out0, beg, pos, H) == d[..n];
    forall k | n <= k < n + len ensures d[k] == d[k - dist] {
      var i := k - |H| + beg;
      assert out[i] == ByteOf(out, beg, H, i - dist);
    }
    CopyIs(d, n, dist, len);
    assert d[..n + len] == d;
  }

  // ---- the loop ----

  datatype Mode = LEN | TYPE | BAD

  /** The items so far have brought the decoder here. */
  ghost predicate Reached(r: BitSource, t: Codes, out: array<Byte>, beg: nat, pos: nat, H: seq<Byte>, start: seq<Byte>,
      n: nat)
    requires beg <= pos <= out.Length
    reads r, out
  {
    After(t, r.T(), 0, start, n) == At(r.used, Data(out[..], beg, pos, H))
  }

  /** n items, and then the end of the block, take used bits and give the data. */
  ghost predicate BlockEnds(t: Codes, T: nat, start: seq<Byte>, n: nat, used: nat, data: seq<Byte>) {
    var a := After(t, T, 0, start, n);
    a.At? && a.data == data && NextItem(t, High(T, a.used)).0 == EndBlock
      && used == a.used + NextItem(t, High(T, a.used)).1
  }

  /** n items give the data; the next one is invalid or reaches back further than reach. */
  ghost predicate ItemFails(t: Codes, T: nat, start: seq<Byte>, n: nat, data: seq<Byte>, reach: int) {
    var a := After(t, T, 0, start, n);
    a.At? && a.data == data && (
      var item := NextItem(t, High(T, a.used)).0;
      item == Invalid || (item.Copy? && item.back > reach))
  }

  lemma AfterNone(t: Codes, T: nat, data: seq<Byte>)
    ensures After(t, T, 0, data, 0) == At(0, data)
  {
  }

  lemma AfterNext(t: Codes, T: nat, start: seq<Byte>, n: nat, c: nat, data: seq<Byte>, item: Item, m: nat)
    requires After(t, T, 0, start, n) == At(c, data) && NextItem(t, High(T, c)) == (item, m)
    ensures item.Literal? ==> After(t, T, 0, start, n + 1) == At(c + m, data + [item.b])
    ensures item.Copy? && 1 <= item.back <= |data| ==>
              After(t, T, 0, start, n + 1) == At(c + m, CopyBack(data, item.back, item.count))
  {
    hide NextItem, High;
  }

  /** inflate_fast: decodes items until there is too little input or output for another, the block
      ends, or an item is bad. What is written is what decoding one item at a time gives. */
  method InflateFast(r: BitSource, t: Codes, out: array<Byte>, beg: nat, pos0: nat, stop: nat, window: array<Byte>,
      wsize: nat, whave: nat, wnext: nat, ghost H: seq<Byte>)
    returns (mode: Mode, pos: nat, ghost n: nat)
    requires SoundCodes(t) && r.Valid() && r.bits0 < 8 && r.used == 0 && r.nextIn == 0 && r.bits == r.bits0
    requires |r.input| >= 6 && stop >= pos0 + 258 && beg <= pos0 && stop <= out.Length
    requires out != window && WindowHolds(window[..], wsize, whave, wnext, H)
    modifies r, out
    ensures r.Valid() && r.bits < 8 && pos0 <= pos <= stop
    ensures forall k :: 0 <= k < out.Length && !(pos0 <= k < pos) ==> out[k] == old(out[k])
    ensures mode == LEN ==>
              Reached(r, t, out, beg, pos, H, old(Data(out[..], beg, pos0, H)), n)
              && n >= 1 && (|r.input| - r.nextIn < 9 || stop - pos < 258)
    ensures mode == TYPE ==>
              BlockEnds(t, r.T(), old(Data(out[..], beg, pos0, H)), n, r.used, Data(out[..], beg, pos, H))
    ensures mode == BAD ==>
              ItemFails(t, r.T(), old(Data(out[..], beg, pos0, H)), n, Data(out[..], beg, pos, H), pos - beg + whave)
  {
    hide BitSource.Valid, NextItem, After, WindowHolds, Copied, SameBefore, SoundCodes, High, CopyBack;
    ghost var start := Data(out[..], beg, pos0, H);
    AfterNone(t, r.T(), start);
    pos, n, mode := pos0, 0, LEN;
    while true
      invariant r.Valid() && r.bits <= 30 && pos0 <= pos && pos + 258 <= stop && r.nextIn + 6 <= |r.input|
      invariant Reached(r, t, out, beg, pos, H, start, n) && mode == LEN
      invariant forall k :: 0 <= k < out.Length && !(pos0 <= k < pos) ==> out[k] == old(out[k])
      decreases stop - pos
    {
      ghost var data, c, o := Data(out[..], beg, pos, H), r.used, out[..];
      var item := ReadItem(r, t);
      AfterNext(t, r.T(), start, n, c, data, item, NextItem(t, High(r.T(), c)).1);
      match item {
        case Literal(b) =>
          out[pos] := b;
          assert out[beg..pos + 1] == o[beg..pos] + [b];
          pos := pos + 1;
        case EndBlock =>
          mode := TYPE;
          break;
        case Invalid =>
          mode := BAD;
          break;
        case Copy(back, count) =>
          if back > pos - beg + whave {
            mode := BAD;
            break;
          }
          CopyRange(t, High(r.T(), c));
          CopyMatch(out, pos, beg, back, count, window, wsize, whave, wnext, H);
          CopiedIs(o, out[..], beg, H, back, pos, count);
          pos := pos + count;
      }
      n := n + 1;
      if !(r.nextIn + 6 <= |r.input| && pos + 258 <= stop) { break; }
    }
    r.ReturnBytes();
  }
}
