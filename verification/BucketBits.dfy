/** The bucket-header bitmap of the fallback sorter, 32 marks to a word, and
    the scans over it that skip whole words. */
module BucketBits {
  import opened Bits

  /** The marks a table of words stands for. */
  ghost function Marks(words: seq<Word>): (m: seq<bool>)
    ensures |m| == 32 * |words|
  {
    seq(32 * |words|, z requires 0 <= z < 32 * |words| => BitOf(words[z / 32], z % 32))
  }

  lemma MarksUpdate(words: seq<Word>, z: int, w: Word, on: bool)
    requires 0 <= z < 32 * |words|
    requires forall i: nat :: i < 32 ==> BitOf(w, i) == if i == z % 32 then on else BitOf(words[z / 32], i)
    ensures Marks(words[z / 32 := w]) == Marks(words)[z := on]
  {
    var a, b := Marks(words[z / 32 := w]), Marks(words)[z := on];
    forall y | 0 <= y < 32 * |words| ensures a[y] == b[y] {
      if y / 32 == z / 32 && y % 32 == z % 32 {
        assert y == z;
      }
    }
  }

  method SetMark(bhtab: array<Word>, z: int)
    requires 0 <= z < 32 * bhtab.Length
    modifies bhtab
    ensures Marks(bhtab[..]) == old(Marks(bhtab[..]))[z := true]
  {
    ghost var words := bhtab[..];
    var w := bhtab[z / 32];
    var bit := Pow2(z % 32);
    forall i: nat ensures BitOf(BitOr(w, bit), i) == (BitOf(w, i) || i == z % 32) {
      BitOrBits(w, bit, i);
      Pow2Bits(z % 32, i);
    }
    Pow2Constants();
    Pow2Monotone(z % 32, 31);
    BitOrBound(w, bit, 32);
    var w': Word := BitOr(w, bit);
    bhtab[z / 32] := w';
    MarksUpdate(words, z, w', true);
    assert bhtab[..] == words[z / 32 := w'];
  }

  method ClearMark(bhtab: array<Word>, z: int)
    requires 0 <= z < 32 * bhtab.Length
    modifies bhtab
    ensures Marks(bhtab[..]) == old(Marks(bhtab[..]))[z := false]
  {
    ghost var words := bhtab[..];
    var w := bhtab[z / 32];
    var bit := Pow2(z % 32);
    forall i: nat ensures BitOf(BitAndNot(w, bit), i) == (BitOf(w, i) && i != z % 32) {
      BitAndNotBits(w, bit, i);
      Pow2Bits(z % 32, i);
    }
    BitAndNotBound(w, bit);
    var w': Word := BitAndNot(w, bit);
    bhtab[z / 32] := w';
    MarksUpdate(words, z, w', false);
    assert bhtab[..] == words[z / 32 := w'];
  }

  method IsMarked(bhtab: array<Word>, z: int) returns (on: bool)
    requires 0 <= z < 32 * bhtab.Length
    ensures on == Marks(bhtab[..])[z]
  {
    on := BitOf(bhtab[z / 32], z % 32);
  }

  lemma WordMarks(words: seq<Word>, k: int)
    requires 0 <= k && k % 32 == 0 && k + 32 <= 32 * |words|
    ensures words[k / 32] == 0xffff_ffff ==> forall z :: k <= z < k + 32 ==> Marks(words)[z]
    ensures words[k / 32] == 0 ==> forall z :: k <= z < k + 32 ==> !Marks(words)[z]
  {
    forall z | k <= z < k + 32
      ensures words[k / 32] == 0xffff_ffff ==> Marks(words)[z]
      ensures words[k / 32] == 0 ==> !Marks(words)[z]
    {
      assert z / 32 == k / 32 && z % 32 == z - k;
      WordBit(words[k / 32], z - k);
    }
  }

  lemma WordBit(w: Word, i: nat)
    requires i < 32
    ensures w == 0xffff_ffff ==> BitOf(w, i)
    ensures w == 0 ==> !BitOf(w, i)
  {
    hide BitOf, Pow2;
    Pow2Constants();
    OnesBits(32, i);
    ZeroHasNoBits(i);
  }

  /** The first position from k0 on that is not marked; stop is one such. */
  method NextClear(bhtab: array<Word>, k0: int, ghost stop: int) returns (k: int)
    requires 0 <= k0 <= stop < 32 * bhtab.Length && !Marks(bhtab[..])[stop]
    ensures k0 <= k <= stop && !Marks(bhtab[..])[k]
    ensures forall z :: k0 <= z < k ==> Marks(bhtab[..])[z]
  {
    hide Marks;
    ghost var m := Marks(bhtab[..]);
    k := k0;
    var on := IsMarked(bhtab, k);
    while on && k % 32 != 0
      invariant k0 <= k <= stop && on == m[k]
      invariant forall z :: k0 <= z < k ==> m[z]
      decreases stop - k
    {
      k := k + 1;
      on := IsMarked(bhtab, k);
    }
    if on {
      while bhtab[k / 32] == 0xffff_ffff
        invariant k0 <= k <= stop && k % 32 == 0
        invariant forall z :: k0 <= z < k ==> m[z]
        decreases stop - k
      {
        WordMarks(bhtab[..], k);
        k := k + 32;
      }
      on := IsMarked(bhtab, k);
      while on
        invariant k0 <= k <= stop && on == m[k]
        invariant forall z :: k0 <= z < k ==> m[z]
        decreases stop - k
      {
        k := k + 1;
        on := IsMarked(bhtab, k);
      }
    }
  }

  /** The first position from k0 on that is marked; stop is one such. */
  method NextMarked(bhtab: array<Word>, k0: int, ghost stop: int) returns (k: int)
    requires 0 <= k0 <= stop < 32 * bhtab.Length && Marks(bhtab[..])[stop]
    ensures k0 <= k <= stop && Marks(bhtab[..])[k]
    ensures forall z :: k0 <= z < k ==> !Marks(bhtab[..])[z]
  {
    hide Marks;
    ghost var m := Marks(bhtab[..]);
    k := k0;
    var on := IsMarked(bhtab, k);
    while !on && k % 32 != 0
      invariant k0 <= k <= stop && on == m[k]
      invariant forall z :: k0 <= z < k ==> !m[z]
      decreases stop - k
    {
      k := k + 1;
      on := IsMarked(bhtab, k);
    }
    if !on {
      while bhtab[k / 32] == 0
        invariant k0 <= k <= stop && k % 32 == 0
        invariant forall z :: k0 <= z < k ==> !m[z]
        decreases stop - k
      {
        WordMarks(bhtab[..], k);
        k := k + 32;
      }
      on := IsMarked(bhtab, k);
      while !on
        invariant k0 <= k <= stop && on == m[k]
        invariant forall z :: k0 <= z < k ==> !m[z]
        decreases stop - k
      {
        k := k + 1;
        on := IsMarked(bhtab, k);
      }
    }
  }
}
