/** Move-to-front lists and zero runs in bijective base two: the symbols the
    compressor makes of the last column, and how they are undone. */
module MoveToFront {
  import opened Bits
  import opened Sequences

  const RUNA := 0
  const RUNB := 1
  const RUN_LIMIT := 2 * 1024 * 1024

  /** The list with element i taken to the front. */
  ghost function Front(l: seq<Byte>, i: nat): (r: seq<Byte>)
    requires i < |l|
    ensures |r| == |l| && r[0] == l[i]
    ensures forall k :: 1 <= k <= i ==> r[k] == l[k - 1]
    ensures forall k :: i < k < |l| ==> r[k] == l[k]
  {
    [l[i]] + l[..i] + l[i + 1..]
  }

  lemma FrontDistinct(l: seq<Byte>, i: nat)
    requires i < |l| && Distinct(l)
    ensures Distinct(Front(l, i)) && forall x :: x in l <==> x in Front(l, i)
  {
    var r := Front(l, i);
    forall x | x in l ensures x in r {
      var k :| 0 <= k < |l| && l[k] == x;
      assert r[if k == i then 0 else if k < i then k + 1 else k] == x;
    }
  }

  ghost function IndexOf(l: seq<Byte>, x: Byte): (i: nat)
    requires x in l
    ensures i < |l| && l[i] == x && forall k :: 0 <= k < i ==> l[k] != x
  {
    if l[0] == x then 0 else IndexOf(l[1..], x) + 1
  }

  ghost function Identity(n: nat): (l: seq<Byte>)
    requires n <= 256
    ensures |l| == n && (forall i :: 0 <= i < n ==> l[i] == i) && Distinct(l)
  {
    seq(n, i requires 0 <= i < n => i)
  }

  // ---- zero runs ----

  /** z as a run of RUNA and RUNB, least significant first: digits 1 and 2 in base two. */
  ghost function RunSyms(z: nat): (s: seq<int>)
    ensures forall k :: 0 <= k < |s| ==> s[k] == RUNA || s[k] == RUNB
  {
    if z == 0 then [] else [(z - 1) % 2] + RunSyms((z - 1) / 2)
  }

  ghost function RunValue(s: seq<int>): (z: int) {
    if s == [] then 0 else s[0] + 1 + 2 * RunValue(s[1..])
  }

  lemma {:induction false} RunRoundTrip(z: nat)
    ensures RunValue(RunSyms(z)) == z
  {
    if z > 0 { RunRoundTrip((z - 1) / 2); }
  }

  /** A run of k symbols stands for at least 2^k - 1 items, so it is never longer than they are. */
  lemma {:induction false} RunLength(z: nat)
    ensures Pow2(|RunSyms(z)|) <= z + 1 && |RunSyms(z)| <= z
  {
    if z > 0 { RunLength((z - 1) / 2); }
  }

  // ---- encoding ----

  datatype Enc = Enc(list: seq<Byte>, pend: nat, out: seq<int>)

  ghost function EncStep(e: Enc, x: Byte): (r: Enc)
    requires x in e.list
    ensures |r.list| == |e.list|
  {
    if e.list[0] == x then e.(pend := e.pend + 1)
    else var j := IndexOf(e.list, x);
      Enc(Front(e.list, j), 0, e.out + RunSyms(e.pend) + [j + 1])
  }

  ghost predicate Encodable(n: nat, xs: seq<Byte>) {
    0 < n <= 256 && forall i :: 0 <= i < |xs| ==> xs[i] < n
  }

  /** l lists 0..n-1, each once. */
  ghost predicate Listing(n: nat, l: seq<Byte>) {
    0 < |l| == n <= 256 && Distinct(l) && forall x: Byte :: x in l <==> x < n
  }

  lemma IdentityListing(n: nat)
    requires 0 < n <= 256
    ensures Listing(n, Identity(n))
  {
    forall x: Byte | x < n ensures x in Identity(n) { assert Identity(n)[x] == x; }
  }

  lemma EncListing(n: nat, e: Enc, x: Byte)
    requires Listing(n, e.list) && x < n
    ensures x in e.list && Listing(n, EncStep(e, x).list)
  {
    if e.list[0] != x { FrontDistinct(e.list, IndexOf(e.list, x)); }
  }

  /** The state after the items xs, starting from the identity list. */
  ghost function EncAll(n: nat, xs: seq<Byte>): (r: Enc)
    requires Encodable(n, xs)
    ensures Listing(n, r.list)
  {
    if xs == [] then
      IdentityListing(n);
      Enc(Identity(n), 0, [])
    else
      var e := EncAll(n, xs[..|xs| - 1]);
      EncListing(n, e, xs[|xs| - 1]);
      EncStep(e, xs[|xs| - 1])
  }

  /** The whole symbol sequence for a block, closed by the end-of-block symbol. */
  ghost function Symbols(n: nat, xs: seq<Byte>): seq<int>
    requires Encodable(n, xs)
  {
    var e := EncAll(n, xs);
    e.out + RunSyms(e.pend) + [n + 1]
  }

  /** Never more symbols than items, the pending run included. */
  lemma {:induction false} SymbolsShort(n: nat, xs: seq<Byte>)
    requires Encodable(n, xs)
    ensures |EncAll(n, xs).out| + EncAll(n, xs).pend <= |xs|
    ensures |Symbols(n, xs)| <= |xs| + 1
  {
    if xs != [] {
      SymbolsShort(n, xs[..|xs| - 1]);
      RunLength(EncAll(n, xs[..|xs| - 1]).pend);
    }
    RunLength(EncAll(n, xs).pend);
  }

  // ---- decoding ----

  datatype Undo = Undo(list: seq<Byte>, run: nat, weight: nat, out: seq<Byte>)

  /** The run of front items read so far is put out. */
  ghost function Flush(u: Undo): (r: Undo)
    requires |u.list| > 0
  {
    Undo(u.list, 0, 1, u.out + Rep(u.list[0], u.run))
  }

  ghost function UndoStep(u: Undo, sym: int): (r: Undo)
    requires |u.list| > 0 && 0 <= sym <= |u.list|
    ensures |r.list| == |u.list|
  {
    if sym <= RUNB then u.(run := u.run + (sym + 1) * u.weight, weight := 2 * u.weight)
    else Undo(Front(u.list, sym - 1), 0, 1, u.out + Rep(u.list[0], u.run) + [u.list[sym - 1]])
  }

  ghost function UndoFrom(u: Undo, syms: seq<int>): (r: Undo)
    requires |u.list| > 0 && forall k :: 0 <= k < |syms| ==> 0 <= syms[k] <= |u.list|
    ensures |r.list| == |u.list|
  {
    if syms == [] then u else UndoStep(UndoFrom(u, syms[..|syms| - 1]), syms[|syms| - 1])
  }

  lemma {:induction false} UndoConcat(u: Undo, s: seq<int>, t: seq<int>)
    requires |u.list| > 0
    requires forall k :: 0 <= k < |s| ==> 0 <= s[k] <= |u.list|
    requires forall k :: 0 <= k < |t| ==> 0 <= t[k] <= |u.list|
    ensures UndoFrom(u, s + t) == UndoFrom(UndoFrom(u, s), t)
  {
    if t == [] {
      assert s + t == s;
    } else {
      var k := |t| - 1;
      UndoConcat(u, s, t[..k]);
      assert (s + t)[..|s + t| - 1] == s + t[..k];
    }
  }

  /** Reading a run from the given weight. */
  lemma {:induction false} UndoRun(u: Undo, s: seq<int>)
    requires |u.list| > 0 && forall k :: 0 <= k < |s| ==> s[k] == RUNA || s[k] == RUNB
    ensures RunValue(s) >= 0
    ensures UndoFrom(u, s) == u.(run := u.run + u.weight * RunValue(s), weight := u.weight * Pow2(|s|))
    decreases |s|
  {
    if s == [] {
    } else {
      var v := UndoStep(u, s[0]);
      assert s == [s[0]] + s[1..];
      UndoConcat(u, [s[0]], s[1..]);
      assert UndoFrom(u, [s[0]]) == v by { assert [s[0]][..0] == []; }
      UndoRun(v, s[1..]);
      RunArithmetic(u.run, u.weight, s[0], RunValue(s[1..]), Pow2(|s| - 1));
    }
  }

  lemma RunArithmetic(run: nat, w: nat, d: int, z: int, p: nat)
    ensures (run + (d + 1) * w) + (2 * w) * z == run + w * (d + 1 + 2 * z)
    ensures (2 * w) * p == w * (2 * p)
  {
  }

  ghost function Start(n: nat): (u: Undo)
    requires 0 < n <= 256
  {
    Undo(Identity(n), 0, 1, [])
  }

  ghost predicate InAlphabet(n: nat, s: seq<int>) {
    forall k :: 0 <= k < |s| ==> 0 <= s[k] <= n
  }

  /** The decoder, having read what the encoder has put out, holds the encoder's
      list and all items but the pending run. */
  ghost predicate Tracks(n: nat, xs: seq<Byte>, e: Enc) {
    && 0 < |e.list| == n <= 256 && InAlphabet(n, e.out) && e.pend <= |xs|
    && UndoFrom(Start(n), e.out) == Undo(e.list, 0, 1, xs[..|xs| - e.pend])
    && xs[|xs| - e.pend..] == Rep(e.list[0], e.pend)
  }

  /** A pending run, put out and read back. */
  lemma TracksRun(n: nat, xs: seq<Byte>, e: Enc)
    requires Tracks(n, xs, e)
    ensures var s := e.out + RunSyms(e.pend);
            InAlphabet(n, s) && UndoFrom(Start(n), s) == Undo(e.list, e.pend, Pow2(|RunSyms(e.pend)|),
                                                              xs[..|xs| - e.pend])
    ensures xs[..|xs| - e.pend] + Rep(e.list[0], e.pend) == xs
  {
    hide UndoStep;
    var z := RunSyms(e.pend);
    assert InAlphabet(n, z);
    UndoConcat(Start(n), e.out, z);
    UndoRun(UndoFrom(Start(n), e.out), z);
    RunRoundTrip(e.pend);
  }

  lemma UndoOne(u: Undo, sym: int)
    requires |u.list| > 0 && 0 <= sym <= |u.list|
    ensures UndoFrom(u, [sym]) == UndoStep(u, sym)
  {
    assert [sym][..0] == [];
  }

  lemma TracksStep(n: nat, xs: seq<Byte>, e: Enc)
    requires xs != [] && Tracks(n, xs[..|xs| - 1], e) && xs[|xs| - 1] in e.list
    ensures Tracks(n, xs, EncStep(e, xs[|xs| - 1]))
  {
    hide RunSyms, UndoFrom;
    var k, x := |xs| - 1, xs[|xs| - 1];
    if e.list[0] == x {
      assert xs[..k][..k - e.pend] == xs[..k - e.pend];
      assert xs[k - e.pend..] == xs[..k][k - e.pend..] + [x];
    } else {
      var j, s := IndexOf(e.list, x), e.out + RunSyms(e.pend);
      TracksRun(n, xs[..k], e);
      assert InAlphabet(n, [j + 1]);
      UndoConcat(Start(n), s, [j + 1]);
      UndoOne(UndoFrom(Start(n), s), j + 1);
      assert xs == xs[..k] + [x];
      assert xs[..|xs| - 0] == xs;
    }
  }

  lemma {:induction false} UndoEncoded(n: nat, xs: seq<Byte>)
    requires Encodable(n, xs)
    ensures Tracks(n, xs, EncAll(n, xs))
  {
    hide Tracks;
    if xs == [] {
      TracksStart(n);
    } else {
      var k := |xs| - 1;
      UndoEncoded(n, xs[..k]);
      EncListing(n, EncAll(n, xs[..k]), xs[k]);
      TracksStep(n, xs, EncAll(n, xs[..k]));
    }
  }

  lemma TracksStart(n: nat)
    requires 0 < n <= 256
    ensures Tracks(n, [], Enc(Identity(n), 0, []))
  {
  }

  /** Move-to-front and run coding lose nothing. */
  lemma SymbolsRoundTrip(n: nat, xs: seq<Byte>)
    requires Encodable(n, xs)
    ensures var s := Symbols(n, xs); InAlphabet(n, s[..|s| - 1]) && s[|s| - 1] == n + 1
    ensures var s := Symbols(n, xs); Flush(UndoFrom(Start(n), s[..|s| - 1])).out == xs
  {
    hide Tracks, UndoFrom, RunSyms;
    var e, s := EncAll(n, xs), Symbols(n, xs);
    UndoEncoded(n, xs);
    TracksRun(n, xs, e);
    assert s[..|s| - 1] == e.out + RunSyms(e.pend);
  }
}
