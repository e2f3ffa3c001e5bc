/** The decoder accepts every symbol sequence the compressor makes, and gets the
    same bytes back. */
module MtfRoundTrip {
  import opened Bits
  import opened Rotations
  import opened Radix
  import opened BwtTheory
  import opened MoveToFront
  import opened MtfEncode
  import opened MtfDecode

  /** No run symbol is reached with a place value above m. */
  ghost predicate Light(n: nat, s: seq<int>, m: nat)
    requires 0 < n <= 256 && InAlphabet(n, s)
  {
    forall k :: 0 <= k < |s| && s[k] <= RUNB ==> Weight(n, s, k) <= m
  }

  ghost function Weight(n: nat, s: seq<int>, k: nat): nat
    requires 0 < n <= 256 && InAlphabet(n, s) && k <= |s|
  {
    UndoFrom(Start(n), s[..k]).weight
  }

  lemma RunWeight(n: nat, s: seq<int>, z: nat, i: nat)
    requires 0 < n <= 256 && InAlphabet(n, s) && UndoFrom(Start(n), s).weight == 1 && i <= |RunSyms(z)|
    ensures InAlphabet(n, s + RunSyms(z)) && Weight(n, s + RunSyms(z), |s| + i) <= z + 1
  {
    var r := RunSyms(z);
    assert InAlphabet(n, r);
    assert (s + r)[..|s| + i] == s + r[..i];
    UndoConcat(Start(n), s, r[..i]);
    UndoRun(UndoFrom(Start(n), s), r[..i]);
    Pow2Monotone(i, |r|);
    RunLength(z);
  }

  lemma LightRun(n: nat, s: seq<int>, z: nat, m: nat)
    requires 0 < n <= 256 && InAlphabet(n, s) && UndoFrom(Start(n), s).weight == 1 && Light(n, s, m) && z + 1 <= m
    ensures InAlphabet(n, s + RunSyms(z)) && Light(n, s + RunSyms(z), m)
  {
    var t := s + RunSyms(z);
    assert InAlphabet(n, RunSyms(z));
    forall k | 0 <= k < |t| && t[k] <= RUNB ensures Weight(n, t, k) <= m {
      LightAt(n, s, z, m, k);
    }
  }

  lemma LightAt(n: nat, s: seq<int>, z: nat, m: nat, k: nat)
    requires 0 < n <= 256 && InAlphabet(n, s) && UndoFrom(Start(n), s).weight == 1 && Light(n, s, m) && z + 1 <= m
    requires k < |s + RunSyms(z)| && (s + RunSyms(z))[k] <= RUNB && InAlphabet(n, s + RunSyms(z))
    ensures Weight(n, s + RunSyms(z), k) <= m
  {
    var t := s + RunSyms(z);
    if k < |s| {
      assert t[..k] == s[..k];
      assert Weight(n, s, k) <= m;
    } else {
      hide RunSyms, UndoFrom, Weight;
      RunWeight(n, s, z, k - |s|);
    }
  }

  lemma LightOther(n: nat, s: seq<int>, sym: int, m: nat)
    requires 0 < n <= 256 && InAlphabet(n, s) && Light(n, s, m) && RUNB < sym <= n
    ensures InAlphabet(n, s + [sym]) && Light(n, s + [sym], m)
  {
    var t := s + [sym];
    forall k | 0 <= k < |t| && t[k] <= RUNB ensures Weight(n, t, k) <= m {
      assert t[..k] == s[..k];
      assert Weight(n, s, k) <= m;
    }
  }

  lemma {:induction false} EncodedLight(n: nat, xs: seq<Byte>, m: nat)
    requires Encodable(n, xs) && |xs| + 1 <= m
    ensures InAlphabet(n, EncAll(n, xs).out) && Light(n, EncAll(n, xs).out, m)
  {
    UndoEncoded(n, xs);
    if xs != [] {
      var k := |xs| - 1;
      EncodedLight(n, xs[..k], m);
      UndoEncoded(n, xs[..k]);
      SymbolsShort(n, xs[..k]);
      EncListing(n, EncAll(n, xs[..k]), xs[k]);
      StepLight(n, EncAll(n, xs[..k]), xs[k], m);
    }
  }

  lemma StepLight(n: nat, e: Enc, x: Byte, m: nat)
    requires Listing(n, e.list) && x in e.list && InAlphabet(n, e.out) && UndoFrom(Start(n), e.out).weight == 1
    requires Light(n, e.out, m) && e.pend + 1 <= m
    ensures InAlphabet(n, EncStep(e, x).out) && Light(n, EncStep(e, x).out, m)
  {
    hide RunSyms, Light;
    if e.list[0] != x {
      LightRun(n, e.out, e.pend, m);
      LightOther(n, e.out + RunSyms(e.pend), IndexOf(e.list, x) + 1, m);
    }
  }

  /** Whatever a block's last column is, its symbols are decoded without error, to itself. */
  lemma SymbolsDecoded(n: nat, xs: seq<Byte>)
    requires Encodable(n, xs) && |xs| < RUN_LIMIT - 1
    ensures WellFormed(n, Symbols(n, xs)) && Meaning(n, Symbols(n, xs)) == xs
    ensures forall k: nat :: !Heavy(n, Symbols(n, xs), k)
  {
    hide RunSyms, UndoFrom, EncAll;
    SymbolsRoundTrip(n, xs);
    var s := Symbols(n, xs);
    var t := s[..|s| - 1];
    EncodedLight(n, xs, RUN_LIMIT - 1);
    SymbolsShort(n, xs);
    UndoEncoded(n, xs);
    var e := EncAll(n, xs);
    LightRun(n, e.out, e.pend, RUN_LIMIT - 1);
    assert t == e.out + RunSyms(e.pend);
    forall k: nat ensures !Heavy(n, s, k) {
      if k + 1 < |s| && s[k] <= RUNB {
        assert t[k] <= RUNB && s[..k] == t[..k];
        assert Weight(n, t, k) <= RUN_LIMIT - 1;
      }
    }
  }

  // ---- bytes in use ----

  /** The decoder's map from list positions back to bytes. */
  ghost predicate MapsBack(used: seq<bool>, maps: seq<Byte>) {
    |used| == 256 && |maps| == 256 && forall c :: 0 <= c < 256 && used[c] ==> maps[UsedBelow(used, c)] == c
  }

  /** Mapping the column back gives the last column itself. */
  lemma ColumnBytes(b: Block, f: seq<int>, used: seq<bool>, maps: seq<Byte>)
    requires IsPerm(f, |b|) && AllUsed(b, used) && MapsBack(used, maps)
    ensures Bytes(maps, Column(b, f, used)) == LastColumn(b, f)
  {
  }
}
