/** Sequences: all different, all the same, one after another. */
module Sequences {
  import opened Bits

  ghost predicate Distinct(s: seq<int>) {
    forall i, j :: 0 <= i < j < |s| ==> s[i] != s[j]
  }

  ghost function Rep(c: Byte, n: nat): (s: seq<Byte>)
    ensures |s| == n && forall i :: 0 <= i < n ==> s[i] == c
  {
    seq(n, _ => c)
  }

  /** The same up to p. */
  ghost predicate SameBefore(s: seq<Byte>, s': seq<Byte>, p: nat) {
    |s| == |s'| && p <= |s| && forall i :: 0 <= i < p ==> s[i] == s'[i]
  }

  /** The pieces, one after another. */
  ghost function Concat(pieces: seq<seq<Byte>>): seq<Byte> {
    if pieces == [] then [] else Concat(pieces[..|pieces| - 1]) + pieces[|pieces| - 1]
  }

  lemma {:induction false} ConcatFirst(pieces: seq<seq<Byte>>)
    requires pieces != []
    ensures Concat(pieces) == pieces[0] + Concat(pieces[1..])
  {
    var k := |pieces| - 1;
    if k == 0 {
      assert pieces[..0] == [] && pieces[1..] == [];
    } else {
      ConcatFirst(pieces[..k]);
      var rest := pieces[1..];
      assert pieces[..k][1..] == rest[..k - 1] && rest[k - 1] == pieces[k];
      assert Concat(pieces) == Concat(pieces[..k]) + pieces[k];
      assert Concat(rest) == Concat(rest[..k - 1]) + rest[k - 1];
      assert pieces[0] + Concat(rest[..k - 1]) + pieces[k] == pieces[0] + (Concat(rest[..k - 1]) + pieces[k]);
    }
  }
}
