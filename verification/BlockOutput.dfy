/** The decoder's output side: the block is fetched byte by byte from the inverse walk,
    runs are expanded, and output stops wherever the caller's room ends. */
module BlockOutput {
  import opened Bits
  import opened Sequences
  import opened Rotations
  import opened Radix
  import opened BwtTheory
  import opened BwtInverse
  import opened SmallPointers
  import opened BwtSmall
  import opened BlockCrc
  import opened RunLength

  /** The block from position u on is whole. */
  ghost predicate WholeFrom(b: Block, u: int)
    requires 0 <= u <= |b|
  {
    Whole(b[u..])
  }

  /** What a block stands for from position u on, after a run in progress. */
  ghost function Remaining(b: Block, u: int, ch: Byte, len: nat): (r: seq<Byte>)
    requires 0 <= u <= |b|
  {
    Rep(ch, len) + Expand(b[u..])
  }

  lemma StepMod(n: nat, u: nat)
    requires n > 0
    ensures u % n < n && Step(n, u % n) == (u + 1) % n
  {
    if u % n + 1 == n {
      DivisionIs(u + 1, n, u / n + 1, 0);
      assert u + 1 == (u / n + 1) * n;
    } else {
      DivisionIs(u + 1, n, u / n, u % n + 1);
    }
  }

  /** A run shorter than four: the bytes are there as they are. */
  lemma ShortRun(b: Block, u: int, n: nat, c0: Byte)
    requires 0 <= u < |b| && WholeFrom(b, u) && 1 <= n <= 3 && u + n <= |b|
    requires forall i :: u <= i < u + n ==> b[i] == b[u]
    requires u + n < |b| ==> b[u + n] != b[u]
    ensures WholeFrom(b, u + n) && Remaining(b, u, c0, 0) == Remaining(b, u + n, b[u], n)
  {
    EmptyRun(b, u, c0);
    var s := b[u..];
    assert Leading(s) == n;
    assert s[n..] == b[u + n..];
  }

  /** Four equal bytes and a count. */
  lemma LongRun(b: Block, u: int, c0: Byte)
    requires 0 <= u && u + 3 < |b| && WholeFrom(b, u) && b[u] == b[u + 1] == b[u + 2] == b[u + 3]
    ensures u + 4 < |b| && WholeFrom(b, u + 5) && Remaining(b, u, c0, 0) == Remaining(b, u + 5, b[u], Full(b[u + 4]))
  {
    EmptyRun(b, u, c0);
    var s := b[u..];
    assert Leading(s) == 4;
    assert s[5..] == b[u + 5..];
  }

  lemma EndOfBlock(b: Block, ch: Byte)
    ensures Remaining(b, |b|, ch, 0) == []
  {
    assert b[|b|..] == [];
  }

  /** One byte of a run put out. */
  lemma EmitOne(b: Block, u: int, ch: Byte, len: nat)
    requires 0 <= u <= |b| && len > 0
    ensures Remaining(b, u, ch, len) == [ch] + Remaining(b, u, ch, len - 1)
  {
    assert Rep(ch, len) == [ch] + Rep(ch, len - 1);
    Joined([ch], Rep(ch, len - 1), Expand(b[u..]));
  }

  class DState {
    const small: bool
    const tt: array<Word>
    const ll16: array<Half>
    const ll4: array<Byte>
    const cftab: array<int>
    const saveNblock: int
    var tPos: int
    var k0: Byte
    var nblockUsed: int
    var stateOutLen: nat
    var stateOutCh: Byte
    var calculatedBlockCRC: Word

    ghost const b: Block
    ghost const f: seq<int>
    ghost const path: seq<int>

    /** The walk is ready to yield byte nblockUsed, round the cycle. */
    ghost predicate Walking()
      reads this`tPos, this`nblockUsed, tt, ll16, ll4, cftab
    {
      && nblockUsed >= 0
      && if small then
           && |b| <= ll16.Length && |b| <= 2 * ll4.Length && cftab.Length == 257 && IsPerm(f, |b|)
           && SmallWalk(b, f, Pointers(ll16[..], ll4[..], |b|), path, tPos, nblockUsed % |b|)
           && (forall v :: 0 <= v <= 256 ==> cftab[v] == Below(LastColumn(b, f), v))
         else FastWalk(b, f, tt[..], tPos, nblockUsed % |b|)
    }

    ghost predicate Valid()
      reads this`tPos, this`nblockUsed, this`k0, tt, ll16, ll4, cftab
    {
      && saveNblock == |b| && Walking() && 1 <= nblockUsed <= saveNblock + 1
      && (nblockUsed <= saveNblock ==> k0 == b[nblockUsed - 1])
      && WholeFrom(b, nblockUsed - 1)
    }

    /** All bytes still to come. */
    ghost function Rest(): seq<Byte>
      reads this`nblockUsed, this`stateOutCh, this`stateOutLen
    {
      if 1 <= nblockUsed <= |b| + 1 then Remaining(b, nblockUsed - 1, stateOutCh, stateOutLen) else []
    }

    /** The state in which the decoder leaves a block that has been inverted: one byte fetched. */
    constructor (small: bool, tt: array<Word>, ll16: array<Half>, ll4: array<Byte>, cftab: array<int>, nblock: int,
        tPos: int, ghost b: Block, ghost f: seq<int>, ghost path: seq<int>)
      requires nblock == |b| && Whole(b)
      requires if small then
                 |b| <= ll16.Length && |b| <= 2 * ll4.Length && cftab.Length == 257 && IsPerm(f, |b|) &&
                 SmallWalk(b, f, Pointers(ll16[..], ll4[..], |b|), path, tPos, 0) &&
                 (forall v :: 0 <= v <= 256 ==> cftab[v] == Below(LastColumn(b, f), v))
               else FastWalk(b, f, tt[..], tPos, 0)
      ensures Valid() && this.b == b && Rest() == Expand(b) && calculatedBlockCRC == CRC_START
      ensures this.tt == tt && this.ll16 == ll16 && this.ll4 == ll4 && this.cftab == cftab && this.small == small
    {
      hide SmallWalk, FastWalk, Below, LastColumn, Pointers, Whole, Expand, Remaining;
      this.small, this.tt, this.ll16, this.ll4, this.cftab, this.saveNblock := small, tt, ll16, ll4, cftab, nblock;
      this.b, this.f, this.path := b, f, path;
      this.tPos, nblockUsed, k0, stateOutLen, stateOutCh, calculatedBlockCRC := tPos, 0, 0, 0, 0, CRC_START;
      new;
      SmallMod(|b|, 0);
      assert Walking();
      hide Walking;
      k0 := Next();
      assert b[0..] == b;
      EmptyRun(b, 0, 0);
    }

    /** Every byte has been used and no run is left. */
    lemma AllOut()
      requires Valid() && nblockUsed == saveNblock + 1 && stateOutLen == 0
      ensures Rest() == []
    {
      hide Walking, Expand, WholeFrom;
      EndOfBlock(b, stateOutCh);
    }

    /** BZ_GET_FAST or BZ_GET_SMALL, and the count of bytes used. */
    method Next() returns (c: Byte)
      requires Walking()
      modifies this`tPos, this`nblockUsed
      ensures Walking() && nblockUsed == old(nblockUsed) + 1
      ensures old(nblockUsed) < |b| ==> c == b[old(nblockUsed)]
    {
      hide SmallWalk, FastWalk, Below, LastColumn, Pointers;
      StepMod(|b|, nblockUsed);
      SmallMod(|b|, nblockUsed);
      if small {
        c, tPos := GetSmall(ll16, ll4, cftab, tPos, b, f, path, nblockUsed % |b|);
      } else {
        c, tPos := GetFast(tt, tPos, b, f, nblockUsed % |b|);
      }
      nblockUsed := nblockUsed + 1;
    }

    /** Two equal bytes have been seen: a third, a fourth, a count? */
    method LongerRun(ghost u: int, ghost c0: Byte)
      requires saveNblock == |b| && Walking() && 0 <= u && u + 1 < |b| && nblockUsed == u + 2
      requires WholeFrom(b, u) && k0 == stateOutCh == b[u] == b[u + 1]
      modifies this`tPos, this`nblockUsed, this`k0, this`stateOutLen
      ensures Valid() && nblockUsed > old(nblockUsed) && stateOutLen > 1 && Rest() == Remaining(b, u, c0, 0)
    {
      hide Walking, Expand, WholeFrom, Remaining;
      stateOutLen := 2;
      var k1 := Next();
      if nblockUsed == saveNblock + 1 { ShortRun(b, u, 2, c0); return; }
      if k1 != k0 { ShortRun(b, u, 2, c0); k0 := k1; return; }
      stateOutLen := 3;
      k1 := Next();
      if nblockUsed == saveNblock + 1 { ShortRun(b, u, 3, c0); return; }
      if k1 != k0 { ShortRun(b, u, 3, c0); k0 := k1; return; }
      LongRun(b, u, c0);
      k1 := Next();
      stateOutLen := Full(k1);
      k0 := Next();
    }

    /** Looks at up to four bytes for the next run, and at its count. */
    method StartRun()
      requires Valid() && stateOutLen == 0 && nblockUsed <= saveNblock
      modifies this`tPos, this`nblockUsed, this`k0, this`stateOutLen, this`stateOutCh
      ensures Valid() && nblockUsed > old(nblockUsed) && stateOutLen > 0 && Rest() == old(Rest())
    {
      hide Walking, Expand, WholeFrom, Remaining;
      ghost var u, c0 := nblockUsed - 1, stateOutCh;
      stateOutLen := 1;
      stateOutCh := k0;
      var k1 := Next();
      if nblockUsed == saveNblock + 1 { ShortRun(b, u, 1, c0); return; }
      if k1 != k0 { ShortRun(b, u, 1, c0); k0 := k1; return; }
      LongerRun(u, c0);
    }

    /** unRLE_obuf_to_output_SMALL: fills the room given with the next bytes of the block. */
    method OutputSmall(availOut: nat) returns (corrupt: bool, out: seq<Byte>)
      requires Valid()
      modifies this`tPos, this`nblockUsed, this`k0, this`stateOutLen, this`stateOutCh, this`calculatedBlockCRC
      ensures !corrupt && Valid()
      ensures |out| <= availOut && (|out| < availOut ==>
                                      Rest() == [] && nblockUsed == saveNblock + 1 && stateOutLen == 0)
      ensures old(Rest()) == out + Rest()
      ensures calculatedBlockCRC == Crc(old(calculatedBlockCRC), out)
    {
      hide Walking, Expand, WholeFrom, Remaining, Crc, Update;
      out := [];
      ghost var goal, crc0 := Rest(), calculatedBlockCRC;
      NothingYet(crc0, goal);
      while true
        invariant Valid() && |out| <= availOut && goal == out + Rest() && calculatedBlockCRC == Crc(crc0, out)
        decreases saveNblock + 1 - nblockUsed
      {
        ghost var u := nblockUsed;
        while true
          invariant Valid() && |out| <= availOut && goal == out + Rest() && calculatedBlockCRC == Crc(crc0, out)
                    && nblockUsed == u
          decreases stateOutLen
        {
          if |out| == availOut { return false, out; }
          if stateOutLen == 0 { break; }
          out := EmitByte(out, goal, crc0);
        }
        if nblockUsed == saveNblock + 1 {
          EndOfBlock(b, stateOutCh);
          return false, out;
        }
        StartRun();
      }
    }

    /** One byte of the current run goes out. */
    method EmitByte(out0: seq<Byte>, ghost goal: seq<Byte>, ghost crc0: Word) returns (out: seq<Byte>)
      requires Valid() && stateOutLen > 0 && goal == out0 + Rest() && calculatedBlockCRC == Crc(crc0, out0)
      modifies this`stateOutLen, this`calculatedBlockCRC
      ensures Valid() && stateOutLen == old(stateOutLen) - 1 && out == out0 + [stateOutCh]
      ensures goal == out + Rest() && calculatedBlockCRC == Crc(crc0, out)
    {
      hide Walking, Expand, WholeFrom, Remaining, Crc, Update;
      EmitOne(b, nblockUsed - 1, stateOutCh, stateOutLen);
      CrcConcat(crc0, out0, [stateOutCh]);
      CrcOne(Crc(crc0, out0), stateOutCh);
      ghost var rest := Remaining(b, nblockUsed - 1, stateOutCh, stateOutLen - 1);
      out := out0 + [stateOutCh];
      Joined(out0, [stateOutCh], rest);
      calculatedBlockCRC := Update(calculatedBlockCRC, stateOutCh);
      stateOutLen := stateOutLen - 1;
    }

    /** Puts out a run but for its last byte. */
    method DrainFast(availOut: nat, out0: seq<Byte>, ghost goal: seq<Byte>, ghost crc0: Word) returns (out: seq<Byte>)
      requires Valid() && stateOutLen > 0 && |out0| <= availOut && goal == out0 + Rest()
               && calculatedBlockCRC == Crc(crc0, out0)
      modifies this`stateOutLen, this`calculatedBlockCRC
      ensures Valid() && |out| <= availOut && goal == out + Rest() && calculatedBlockCRC == Crc(crc0, out)
      ensures stateOutLen > 0 && (|out| < availOut ==> stateOutLen == 1)
    {
      hide Walking, Expand, WholeFrom, Remaining, Crc, Update;
      out := out0;
      while true
        invariant Valid() && |out| <= availOut && goal == out + Rest() && calculatedBlockCRC == Crc(crc0, out)
                  && stateOutLen > 0
        decreases stateOutLen
      {
        if |out| == availOut { return out; }
        if stateOutLen == 1 { break; }
        out := EmitByte(out, goal, crc0);
      }
    }

    /** unRLE_obuf_to_output_FAST: the same bytes. Single bytes take the short way: the
        inner loop is re-entered without going through the general case. */
    method OutputFast(availOut: nat) returns (corrupt: bool, out: seq<Byte>)
      requires Valid()
      modifies this`tPos, this`nblockUsed, this`k0, this`stateOutLen, this`stateOutCh, this`calculatedBlockCRC
      ensures !corrupt && Valid()
      ensures |out| <= availOut && (|out| < availOut ==>
                                      Rest() == [] && nblockUsed == saveNblock + 1 && stateOutLen == 0)
      ensures old(Rest()) == out + Rest()
      ensures calculatedBlockCRC == Crc(old(calculatedBlockCRC), out)
    {
      hide Walking, Expand, WholeFrom, Remaining, Crc, Update;
      out := [];
      ghost var goal, crc0 := Rest(), calculatedBlockCRC;
      NothingYet(crc0, goal);
      while true
        invariant Valid() && |out| <= availOut && goal == out + Rest() && calculatedBlockCRC == Crc(crc0, out)
        decreases saveNblock + 1 - nblockUsed
      {
        if stateOutLen > 0 {
          out := DrainFast(availOut, out, goal, crc0);
          if |out| == availOut { return false, out; }
        }
        // from here a run of exactly one byte is put out and the next run begun
        while true
          invariant Valid() && |out| <= availOut && goal == out + Rest() && calculatedBlockCRC == Crc(crc0, out)
          invariant stateOutLen <= 1
          decreases saveNblock + 1 - nblockUsed
        {
          if stateOutLen == 1 {
            if |out| == availOut { return false, out; }
            out := EmitByte(out, goal, crc0);
          }
          if nblockUsed > saveNblock + 1 { return true, out; }
          if nblockUsed == saveNblock + 1 {
            EndOfBlock(b, stateOutCh);
            return false, out;
          }
          var single := BeginFast();
          if !single { break; }
        }
      }
    }

    /** Looks for the next run; says whether it is a single byte. */
    method BeginFast() returns (single: bool)
      requires Valid() && stateOutLen == 0 && nblockUsed <= saveNblock
      modifies this`tPos, this`nblockUsed, this`k0, this`stateOutLen, this`stateOutCh
      ensures Valid() && nblockUsed > old(nblockUsed) && Rest() == old(Rest())
              && (if single then stateOutLen == 1 else stateOutLen > 1)
    {
      hide Walking, Expand, WholeFrom, Remaining;
      ghost var u, c0 := nblockUsed - 1, stateOutCh;
      stateOutCh := k0;
      stateOutLen := 1;
      var k1 := Next();
      if k1 != k0 { ShortRun(b, u, 1, c0); k0 := k1; return true; }
      if nblockUsed == saveNblock + 1 { ShortRun(b, u, 1, c0); return true; }
      LongerRun(u, c0);
      return false;
    }
  }

  /** unRLE_obuf_to_output, in the mode the block was set up for. */
  method FillRoom(o: DState, room: nat) returns (out: seq<Byte>)
    requires o.Valid()
    modifies o
    ensures o.Valid() && old(o.Rest()) == out + o.Rest() && o.calculatedBlockCRC == Crc(old(o.calculatedBlockCRC), out)
    ensures |out| <= room && (|out| < room ==> o.Rest() == [] && o.nblockUsed == o.saveNblock + 1 && o.stateOutLen == 0)
  {
    hide DState.Valid, DState.Rest, Crc;
    var corrupt;
    if o.small {
      corrupt, out := o.OutputSmall(room);
    } else {
      corrupt, out := o.OutputFast(room);
    }
  }

  ghost function Sum(rooms: seq<nat>): nat {
    if rooms == [] then 0 else Sum(rooms[..|rooms| - 1]) + rooms[|rooms| - 1]
  }

  /** Output asked for in pieces of any sizes, in either mode, is the output asked for at once. */
  method OutputPieces(s: DState, rooms: seq<nat>) returns (out: seq<Byte>)
    requires s.Valid()
    modifies s
    ensures s.Valid() && old(s.Rest()) == out + s.Rest()
    ensures |out| <= Sum(rooms) && (|out| < Sum(rooms) ==> s.Rest() == [])
    ensures s.calculatedBlockCRC == Crc(old(s.calculatedBlockCRC), out)
  {
    hide DState.Valid, Expand, Remaining, Crc, Update;
    out := [];
    ghost var goal, crc0 := s.Rest(), s.calculatedBlockCRC;
    NothingYet(crc0, goal);
    assert rooms[..0] == [];
    for i := 0 to |rooms|
      invariant s.Valid() && goal == out + s.Rest() && |out| <= Sum(rooms[..i])
                && (|out| < Sum(rooms[..i]) ==> s.Rest() == [])
      invariant s.calculatedBlockCRC == Crc(crc0, out)
    {
      var o := FillRoom(s, rooms[i]);
      assert rooms[..i + 1][..i] == rooms[..i];
      CrcConcat(crc0, out, o);
      Joined(out, o, s.Rest());
      out := out + o;
    }
    assert rooms[..|rooms|] == rooms;
  }

  lemma SmallMod(n: nat, u: nat)
    requires n > 0
    ensures u < n ==> u % n == u
  {
  }

  lemma EmptyRun(b: Block, u: int, ch: Byte)
    requires 0 <= u <= |b|
    ensures Remaining(b, u, ch, 0) == Expand(b[u..])
  {
    assert Rep(ch, 0) == [];
    assert [] + Expand(b[u..]) == Expand(b[u..]);
  }

  lemma NothingYet(crc: Word, goal: seq<Byte>)
    ensures Crc(crc, []) == crc && [] + goal == goal
  {
  }
}
