/** Joining two checksums: the second part's length is applied to the first as zero bytes,
    by repeated squaring of the register's matrix over GF(2). */
module Crc32Combine {
  import opened Bits
  import opened Reversal
  import opened Crc32

  const GF2_DIM := 32

  /** Column i of the matrix: where bit i of the register is after n shifts. */
  ghost predicate Operator(mat: seq<Word>, n: nat) {
    |mat| == GF2_DIM && forall i: nat :: i < GF2_DIM ==> Sends(mat, i, n)
  }

  ghost predicate Sends(mat: seq<Word>, i: nat, n: nat)
    requires i < |mat| && i < GF2_DIM
  {
    BitWord(i);
    mat[i] == Shifts(Pow2(i), n)
  }

  lemma BitWord(i: nat)
    requires i < GF2_DIM
    ensures Pow2(i) < 0x1_0000_0000
  {
    Pow2Constants();
    Pow2Monotone(i, 31);
  }

  lemma HalfOf(vec: nat, i: nat)
    ensures Raised(vec, i) == Raised(vec / 2, i + 1) + if vec % 2 == 1 then Pow2(i) else 0
    ensures Pow2(i) < Pow2(i + 1) && (vec > 0 ==> Raised(vec, i) >= Pow2(i))
  {
    Pow2Next(i);
    var h, l, p := vec / 2, vec % 2, Pow2(i);
    hide Pow2;
    Doubled(h, p);
    BitTimes(h, p);
    SumTimes(2 * h, l, p);
    if vec > 0 { MulMono(1, vec, p); }
  }

  lemma InRange(vec: nat, i: nat)
    requires vec > 0 && Raised(vec, i) < 0x1_0000_0000
    ensures i < GF2_DIM
  {
    HalfOf(vec, i);
    if i >= GF2_DIM {
      Pow2Monotone(32, i);
      Pow2Constants();
    }
  }

  /** One bit of the vector. */
  lemma TimesStep(sum: Word, vec: nat, i: nat, n: nat)
    requires vec > 0 && i < GF2_DIM && Raised(vec, i) < 0x1_0000_0000
    ensures Pow2(i) < 0x1_0000_0000 && Raised(vec / 2, i + 1) < 0x1_0000_0000
    ensures Xor(sum, Shifts(Pow2(i), n)) < 0x1_0000_0000
    ensures Xor(sum, Shifts(Raised(vec, i), n)) ==
            Xor(if vec % 2 == 1 then Xor(sum, Shifts(Pow2(i), n)) else sum, Shifts(Raised(vec / 2, i + 1), n))
  {
    hide Xor, Pow2, Shifts, Raised;
    BitWord(i);
    HalfOf(vec, i);
    XorWord(sum, Shifts(Pow2(i), n));
    if vec % 2 == 1 { OddStep(sum, vec / 2, i, n); }
  }

  lemma OddStep(sum: Word, h: nat, i: nat, n: nat)
    requires Pow2(i) < Pow2(i + 1) && Raised(h, i + 1) + Pow2(i) < 0x1_0000_0000
    ensures Xor(sum, Shifts(Pow2(i), n)) < 0x1_0000_0000
    ensures Xor(sum, Shifts(Raised(h, i + 1) + Pow2(i), n))
            == Xor(Xor(sum, Shifts(Pow2(i), n)), Shifts(Raised(h, i + 1), n))
  {
    hide Xor, Pow2, Shifts;
    var p: Word, q: Word := Pow2(i), Raised(h, i + 1);
    XorWord(sum, Shifts(p, n));
    XorDisjoint(h, p, i + 1);
    ShiftsLinear(q, p, n);
    XorCommutes(Shifts(q, n), Shifts(p, n));
    XorAssoc(sum, Shifts(p, n), Shifts(q, n));
  }

  /** gf2_matrix_times. */
  method Times(mat: array<Word>, vec0: Word, ghost n: nat) returns (sum: Word)
    requires Operator(mat[..], n)
    ensures sum == Shifts(vec0, n)
  {
    hide Xor, Shifts, Pow2, Raised;
    var vec: nat := vec0;
    var i := 0;
    sum := 0;
    RaisedEnds(vec0);
    ZeroShifts(n);
    XorZero(Shifts(vec0, n));
    while vec != 0
      invariant Raised(vec, i) < 0x1_0000_0000 && Xor(sum, Shifts(Raised(vec, i), n)) == Shifts(vec0, n)
      decreases vec
    {
      InRange(vec, i);
      TimesStep(sum, vec, i, n);
      assert Sends(mat[..], i, n);
      if vec % 2 == 1 { sum := Xor(sum, mat[i]); }
      vec := vec / 2;
      i := i + 1;
    }
    RaisedNone(i);
    XorZero(sum);
  }

  lemma RaisedEnds(v: nat)
    ensures Raised(v, 0) == v
  {
  }

  lemma RaisedNone(i: nat)
    ensures Raised(0, i) == 0
  {
  }

  lemma {:induction false} ZeroShifts(n: nat)
    ensures Shifts(0, n) == 0
  {
    if n > 0 { ZeroShifts(n - 1); }
  }

  /** gf2_matrix_square: twice as many shifts. */
  method Square(square: array<Word>, mat: array<Word>, ghost n: nat)
    requires Operator(mat[..], n) && square.Length == GF2_DIM && square != mat
    modifies square
    ensures Operator(square[..], 2 * n)
  {
    hide Shifts, Pow2;
    for i := 0 to GF2_DIM
      invariant forall j: nat :: j < i ==> Sends(square[..], j, 2 * n)
    {
      BitWord(i);
      assert Sends(mat[..], i, n);
      ShiftsAdd(Pow2(i), n, n);
      ghost var was := square[..];
      square[i] := Times(mat, mat[i], n);
      forall j: nat | j < i + 1 ensures Sends(square[..], j, 2 * n) { if j < i { assert Sends(was, j, 2 * n); } }
    }
  }

  /** The operator for one zero bit. */
  method OneBit(odd: array<Word>)
    requires odd.Length == GF2_DIM
    modifies odd
    ensures Operator(odd[..], 1)
  {
    hide Pow2, Shift;
    odd[0] := POLY;
    var row := 1;
    Pow2Zero();
    ShiftOne();
    for i := 1 to GF2_DIM
      invariant row == Pow2(i - 1)
      invariant forall j: nat :: j < i ==> Sends(odd[..], j, 1)
    {
      BitWord(i);
      Pow2Next(i - 1);
      ShiftEven(row);
      ghost var was := odd[..];
      odd[i] := row;
      row := row * 2;
      forall j: nat | j < i + 1 ensures Sends(odd[..], j, 1) { if j < i { assert Sends(was, j, 1); } }
    }
  }

  lemma ShiftOne()
    ensures Shifts(1, 1) == POLY
  {
    hide Xor;
    XorZero(POLY);
    assert Shift(1) == POLY;
    hide Shift;
    assert Shifts(POLY, 0) == POLY;
  }

  lemma ShiftEven(c: Word)
    requires 2 * c < 0x1_0000_0000
    ensures Shifts(2 * c, 1) == c
  {
    hide Xor;
    assert Shift(2 * c) == c;
    hide Shift;
    assert Shifts(c, 0) == c;
  }

  lemma SplitShifts(c: Word, e: nat, len: nat)
    ensures Shifts(c, e * len) == if len % 2 == 1 then Shifts(Shifts(c, e), (2 * e) * (len / 2))
                                                       else Shifts(c, (2 * e) * (len / 2))
  {
    hide Shifts;
    var h := len / 2;
    Halving(e, h);
    if len % 2 == 1 {
      assert len == 2 * h + 1;
      SumTimes(2 * h, 1, e);
      ShiftsAdd(c, e, (2 * e) * h);
    }
  }

  lemma Halving(e: nat, h: nat)
    ensures e * (2 * h) == (2 * e) * h
    ensures (2 * h + 1) * e == e * (2 * h + 1)
  {
  }

  /** Applying e shifts for each of len more steps gives what all shifts at once give. */
  ghost predicate Remains(crc: Word, e: nat, len: nat, goal: Word) {
    Shifts(crc, e * len) == goal
  }

  lemma RemainsStep(crc: Word, e: nat, len: nat, goal: Word)
    requires Remains(crc, e, len, goal)
    ensures Remains(if len % 2 == 1 then Shifts(crc, e) else crc, 2 * e, len / 2, goal)
  {
    SplitShifts(crc, e, len);
  }

  lemma RemainsNone(crc: Word, e: nat, goal: Word)
    requires Remains(crc, e, 0, goal)
    ensures crc == goal
  {
  }

  /** crc32_combine_ for a second part of len2 bytes. */
  method Combine(crc1: Word, crc2: Word, len2: int) returns (r: Word)
    ensures len2 <= 0 ==> r == crc1
    ensures len2 > 0 ==> Xor(Shifts(crc1, 8 * len2), crc2) < 0x1_0000_0000 && r == Xor(Shifts(crc1, 8 * len2), crc2)
  {
    if len2 <= 0 { return crc1; }
    hide Shifts, Xor, Operator, Remains;
    var even, odd := new Word[GF2_DIM](_ => 0), new Word[GF2_DIM](_ => 0);
    OneBit(odd);
    Square(even, odd, 1);
    Square(odd, even, 2);
    var crc, len: nat := crc1, len2;
    ghost var e: nat, goal := 4, Shifts(crc1, 8 * len2);
    assert Remains(crc, 8, len, goal) by { RemainsStart(crc1, len2); }
    while true
      invariant len > 0 && Operator(odd[..], e) && Remains(crc, 2 * e, len, goal)
      invariant even.Length == GF2_DIM == odd.Length
      decreases len
    {
      Square(even, odd, e);
      RemainsStep(crc, 2 * e, len, goal);
      if len % 2 == 1 { crc := Times(even, crc, 2 * e); }
      len := len / 2;
      if len == 0 {
        RemainsNone(crc, 4 * e, goal);
        break;
      }
      Square(odd, even, 2 * e);
      RemainsStep(crc, 4 * e, len, goal);
      if len % 2 == 1 { crc := Times(odd, crc, 4 * e); }
      len := len / 2;
      e := 4 * e;
      if len == 0 {
        RemainsNone(crc, 2 * e, goal);
        break;
      }
    }
    XorWord(crc, crc2);
    r := Xor(crc, crc2);
  }

  lemma RemainsStart(crc1: Word, len2: nat)
    ensures Remains(crc1, 8, len2, Shifts(crc1, 8 * len2))
  {
  }

  // ---- what combining means ----

  /** Starting the register with something extra adds that, shifted past all bytes. */
  lemma {:induction false} RegisterLinear(a: Word, d: Word, s: seq<Byte>)
    ensures Xor(a, d) < 0x1_0000_0000 && Register(Xor(a, d), s) == Xor(Register(a, s), Shifts(d, 8 * |s|))
  {
    hide Xor, Shifts, Update;
    XorWord(a, d);
    if s == [] {
      NoneLeft(d, 8);
    } else {
      var k := |s| - 1;
      RegisterLinear(a, d, s[..k]);
      UpdateLinear(Register(a, s[..k]), Shifts(d, 8 * k), s[k]);
      ShiftsAdd(d, 8 * k, 8);
    }
  }

  lemma UpdateLinear(r: Word, z: Word, b: Byte)
    ensures Xor(r, z) < 0x1_0000_0000 && Update(Xor(r, z), b) == Xor(Update(r, b), Shifts(z, 8))
  {
    hide Xor, Shifts;
    XorWord(r, z);
    XorWord(r, b);
    XorAssoc(r, z, b);
    XorCommutes(z, b);
    XorAssoc(r, b, z);
    ShiftsLinear(Xor(r, b), z, 8);
  }

  lemma NoneLeft(c: Word, n: nat)
    ensures Shifts(c, n * 0) == c
  {
  }

  /** The checksum of a concatenation, from the checksums of its parts and the second length alone. */
  lemma CrcOfConcatenation(a: seq<Byte>, b: seq<Byte>)
    ensures Xor(Shifts(Crc(0, a), 8 * |b|), Crc(0, b)) < 0x1_0000_0000
    ensures Crc(0, a + b) == Xor(Shifts(Crc(0, a), 8 * |b|), Crc(0, b))
  {
    hide Xor, Shifts, Register;
    XorZero(ONES);
    var r := Register(ONES, a);
    XorWord(r, ONES);
    var d := Xor(r, ONES);
    RegisterConcat(ONES, a, b);
    XorAssoc(ONES, r, ONES);
    XorCommutes(ONES, r);
    XorAssoc(r, ONES, ONES);
    XorSelf(ONES);
    XorZero(r);
    XorCommutes(ONES, d);
    RegisterLinear(ONES, d, b);
    var u, z := Register(ONES, b), Shifts(d, 8 * |b|);
    XorWord(u, ONES);
    XorWord(z, Xor(u, ONES));
    XorCommutes(u, z);
    XorAssoc(z, u, ONES);
  }

  /** crc32_combine: for all parts, the checksum of the whole. */
  method CombineCrcs(crc1: Word, crc2: Word, len2: int, ghost a: seq<Byte>, ghost b: seq<Byte>) returns (r: Word)
    requires crc1 == Crc(0, a) && crc2 == Crc(0, b) && len2 == |b|
    ensures r == Crc(0, a + b)
  {
    hide Xor, Shifts, Register;
    CrcOfConcatenation(a, b);
    if b == [] { assert a + b == a; }
    r := Combine(crc1, crc2, len2);
  }

  /** Continuing a checksum is the checksum of the concatenation. */
  lemma CrcContinues(crc: Word, a: seq<Byte>, b: seq<Byte>)
    ensures Crc(Crc(crc, a), b) == Crc(crc, a + b)
  {
    hide Xor, Register;
    XorWord(crc, ONES);
    var r := Register(Xor(crc, ONES), a);
    XorWord(r, ONES);
    XorAssoc(r, ONES, ONES);
    XorSelf(ONES);
    XorZero(r);
    RegisterConcat(Xor(crc, ONES), a, b);
  }
}
