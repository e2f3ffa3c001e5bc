/** One symbol at a time: what the codes of a deflate block say, on an unbounded bit stream
    and with an unbounded history (section 3.2.3 of RFC 1951). */
module InflateItems {
  import opened Bits
  import opened Reversal
  import opened InflateTable
  import opened InflateCodes
  import opened LzTokens

  datatype Codes = Codes(len: seq<Entry>, lenBits: nat, dist: seq<Entry>, distBits: nat)
  datatype Item = Literal(b: Byte) | Copy(back: nat, count: nat) | EndBlock | Invalid

  ghost predicate SoundCodes(t: Codes) { Sound(LENS, t.len, t.lenBits) && Sound(DISTS, t.dist, t.distBits) }

  /** op & mask, for a mask of one bit. */
  predicate Has(op: nat, mask: nat)
    requires mask > 0
  {
    op / mask % 2 == 1
  }

  /** A base and its extra bits. */
  ghost function Extended(e: Entry, x: nat): nat { e.val + Low(x, e.op % 16) }

  /** The distance that follows a length of count, n bits into x. */
  ghost function DistanceAt(t: Codes, x: nat, count: nat, n: nat): (Item, nat) {
    var (e, m) := Lookup(t.dist, t.distBits, High(x, n));
    if Has(e.op, 16) then (Copy(Extended(e, High(x, n + m)), count), n + m + e.op % 16)
    else (Invalid, n + m)
  }

  /** The next item in the bits x, and how many bits it takes. */
  ghost function NextItem(t: Codes, x: nat): (Item, nat) {
    var (e, n) := Lookup(t.len, t.lenBits, x);
    if e.op == 0 then (Literal(e.val % 256), n)
    else if Has(e.op, 16) then DistanceAt(t, x, Extended(e, High(x, n)), n + e.op % 16)
    else if Has(e.op, 64) && Has(e.op, 32) then (EndBlock, n)
    else (Invalid, n)
  }

  datatype Progress = Stuck | At(used: nat, data: seq<Byte>)

  /** After n items from bit c on, with the data so far: literals and copies that reach no further back than the data.
      */
  ghost function After(t: Codes, T: nat, c: nat, data: seq<Byte>, n: nat): Progress {
    if n == 0 then At(c, data)
    else match After(t, T, c, data, n - 1)
      case Stuck => Stuck
      case At(c1, h) =>
        var (item, m) := NextItem(t, High(T, c1));
        match item
        case Literal(b) => At(c1 + m, h + [b])
        case Copy(back, count) => if 1 <= back <= |h| then At(c1 + m, CopyBack(h, back, count)) else Stuck
        case EndBlock => Stuck
        case Invalid => Stuck
  }

  // ---- what tables hold ----

  lemma Powers()
    ensures Pow2(0) == 1 && Pow2(1) == 2 && Pow2(2) == 4 && Pow2(3) == 8 && Pow2(4) == 16 && Pow2(5) == 32
            && Pow2(6) == 64 && Pow2(7) == 128
    ensures Pow2(8) == 256 && Pow2(9) == 512 && Pow2(10) == 1024 && Pow2(11) == 2048 && Pow2(12) == 4096
            && Pow2(13) == 8192
  {
  }

  /** The lengths of a base entry and its extra bits never leave 3..258. */
  lemma LengthRow(sym: nat)
    requires 257 <= sym < 288
    ensures LengthOp(sym) == 72 || LengthOp(sym) == 78 || (16 <= LengthOp(sym) <= 21 && 3 <= LengthBase(sym)
                                                           && LengthBase(sym) + Pow2(LengthOp(sym) - 16) - 1 <= 258)
  {
    Powers();
    hide Pow2;
  }

  lemma DistanceRow(sym: nat)
    requires sym < 32
    ensures DistOp(sym) == 64 || (16 <= DistOp(sym) <= 29 && 1 <= DistBase(sym)
                                  && DistBase(sym) + Pow2(DistOp(sym) - 16) - 1 <= 32768)
  {
    Powers();
    hide Pow2;
  }

  lemma Extra(op: nat, x: nat)
    requires 16 <= op <= 29
    ensures op % 16 == op - 16 && Low(x, op % 16) <= Pow2(op - 16) - 1
  {
    LowBelow(x, op - 16);
  }

  lemma LengthEntry(e: Entry, x: nat)
    requires EndsAt(LENS, e)
    ensures (e.op == 0 && e.val < 256) || e.op == 96 || e.op == 64 || e.op == 72 || e.op == 78 || 16 <= e.op <= 21
    ensures 16 <= e.op <= 21 ==> 3 <= Extended(e, x) <= 258
  {
    hide LengthOp, LengthBase, Low, Pow2;
    if e.op != 64 {
      var s: nat :| s < Symbols(LENS) && IsEntry(LENS, e, s);
      if s > 256 { LengthRow(s); }
      if 16 <= e.op <= 21 { Extra(e.op, x); }
    }
  }

  lemma DistanceEntry(e: Entry, x: nat)
    requires EndsAt(DISTS, e)
    ensures e.op == 64 || 16 <= e.op <= 29
    ensures 16 <= e.op <= 29 ==> 1 <= Extended(e, x) <= 32768
  {
    hide DistOp, DistBase, Low, Pow2;
    if e.op != 64 {
      var s: nat :| s < Symbols(DISTS) && IsEntry(DISTS, e, s);
      DistanceRow(s);
      if 16 <= e.op <= 29 { Extra(e.op, x); }
    }
  }

  lemma LandsAt(kind: Kind, tab: seq<Entry>, root: nat, x: nat)
    requires Sound(kind, tab, root)
    ensures Lands(kind, tab, root, x) && root <= MAXBITS
  {
    hide Lands;
  }

  lemma OpBits(op: nat)
    requires op == 0 || op == 96 || op == 64 || op == 72 || op == 78 || 16 <= op <= 29
    ensures Has(op, 16) <==> 16 <= op <= 29
    ensures Has(op, 64) <==> op >= 64
    ensures Has(op, 32) <==> op == 96
  {
  }

  lemma LengthAt(t: Codes, x: nat)
    requires SoundCodes(t)
    ensures var (e, n) := Lookup(t.len, t.lenBits, x);
      n <= 15 && (e.op == 0 ==> e.val < 256) && (Has(e.op, 16) <==> 16 <= e.op <= 21)
        && (Has(e.op, 16) ==> 3 <= Extended(e, High(x, n)) <= 258)
      && (e.op == 0 || e.op == 96 || e.op == 64 || e.op == 72 || e.op == 78 || 16 <= e.op <= 21)
  {
    hide Lookup, Low, High, Sound, Extended, Has;
    var (e, n) := Lookup(t.len, t.lenBits, x);
    LandsAt(LENS, t.len, t.lenBits, x);
    LengthEntry(e, High(x, n));
    OpBits(e.op);
  }

  lemma DistAt(t: Codes, x: nat)
    requires SoundCodes(t)
    ensures var (e, n) := Lookup(t.dist, t.distBits, x);
      n <= 15 && (e.op == 64 || 16 <= e.op <= 29) && (Has(e.op, 16) <==> 16 <= e.op <= 29)
        && (Has(e.op, 16) ==> 1 <= Extended(e, High(x, n)) <= 32768)
  {
    hide Lookup, Low, High, Sound, Extended, Has;
    var (e, n) := Lookup(t.dist, t.distBits, x);
    LandsAt(DISTS, t.dist, t.distBits, x);
    DistanceEntry(e, High(x, n));
    OpBits(e.op);
  }

  /** A copy is always of a length and a distance that deflate allows, and no item takes more than 48 bits. */
  lemma CopyRange(t: Codes, x: nat)
    requires SoundCodes(t)
    ensures NextItem(t, x).0.Copy? ==> 3 <= NextItem(t, x).0.count <= 258 && 1 <= NextItem(t, x).0.back <= 32768
    ensures NextItem(t, x).1 <= 48
  {
    hide Lookup, Low, High, Sound, SoundCodes, Has;
    LengthAt(t, x);
    var (e, n) := Lookup(t.len, t.lenBits, x);
    if Has(e.op, 16) {
      var n1 := n + e.op % 16;
      DistAt(t, High(x, n1));
      var (f, m) := Lookup(t.dist, t.distBits, High(x, n1));
      hide Extended;
      HighHigh(x, n1, m);
    }
  }
}
