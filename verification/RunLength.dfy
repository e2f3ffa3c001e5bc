/** The first stage: runs of four to 255 equal bytes become four and a count. */
module RunLength {
  import opened Bits
  import opened Sequences

  /** How a run is stored in the block. */
  ghost function PairBytes(c: Byte, n: nat): (s: seq<Byte>)
    requires 1 <= n <= 255
  {
    if n <= 3 then Rep(c, n) else [c, c, c, c, n - 4]
  }

  /** Reading a block left to right: what it stands for, and the run in progress. */
  datatype Seen = Seen(out: seq<Byte>, ch: Byte, len: nat)

  ghost function Read(u: Seen, x: Byte): (r: Seen) {
    if u.len == 4 then Seen(u.out + Rep(u.ch, x), x, 0)
    else Seen(u.out + [x], x, if u.len > 0 && x == u.ch then u.len + 1 else 1)
  }

  ghost function ReadAll(u: Seen, s: seq<Byte>): (r: Seen) {
    if s == [] then u else Read(ReadAll(u, s[..|s| - 1]), s[|s| - 1])
  }

  lemma {:induction false} ReadConcat(u: Seen, s: seq<Byte>, t: seq<Byte>)
    ensures ReadAll(u, s + t) == ReadAll(ReadAll(u, s), t)
  {
    if t == [] {
      assert s + t == s;
    } else {
      ReadConcat(u, s, t[..|t| - 1]);
      assert (s + t)[..|s + t| - 1] == s + t[..|t| - 1];
    }
  }

  ghost const EMPTY: Seen := Seen([], 0, 0)

  lemma ReadOne(u: Seen, x: Byte)
    ensures ReadAll(u, [x]) == Read(u, x)
  {
    assert [x][..0] == [];
  }

  lemma {:induction false} ReadRep(u: Seen, c: Byte, n: nat)
    requires 1 <= n <= 4 && (u.len == 0 || (u.ch != c && u.len < 4))
    ensures ReadAll(u, Rep(c, n)) == Seen(u.out + Rep(c, n), c, n)
  {
    if n == 1 {
      assert Rep(c, 1) == [c];
      ReadOne(u, c);
    } else {
      ReadRep(u, c, n - 1);
      assert Rep(c, n)[..n - 1] == Rep(c, n - 1);
      assert u.out + Rep(c, n - 1) + [c] == u.out + Rep(c, n);
    }
  }

  /** A stored run reads back as that many bytes; a short one is still open to go on. */
  lemma ReadPair(u: Seen, c: Byte, n: nat)
    requires 1 <= n <= 255 && (u.len == 0 || (u.ch != c && u.len < 4))
    ensures var r := ReadAll(u, PairBytes(c, n));
            r.out == u.out + Rep(c, n) && (if n <= 3 then r.len == n && r.ch == c else r.len == 0)
  {
    if n <= 3 {
      ReadRep(u, c, n);
    } else {
      ReadRep(u, c, 4);
      assert PairBytes(c, n) == Rep(c, 4) + [n - 4];
      ReadConcat(u, Rep(c, 4), [n - 4]);
      ReadOne(ReadAll(u, Rep(c, 4)), n - 4);
      assert u.out + Rep(c, 4) + Rep(c, n - 4) == u.out + Rep(c, n);
    }
  }

  // ---- run by run ----

  /** The length of the run of at most four that s begins with. */
  ghost function Leading(s: seq<Byte>): (n: nat)
    requires s != []
    ensures 1 <= n <= 4 && n <= |s| && forall i :: 0 <= i < n ==> s[i] == s[0]
    ensures n < 4 && n < |s| ==> s[n] != s[0]
  {
    if |s| == 1 || s[1] != s[0] then 1
    else if |s| == 2 || s[2] != s[0] then 2
    else if |s| == 3 || s[3] != s[0] then 3 else 4
  }

  /** Four bytes and a count. */
  function Full(c: Byte): nat { c + 4 }

  /** What a block stands for, one run at a time: the decoder's view. */
  ghost function Expand(s: seq<Byte>): (out: seq<Byte>)
    decreases |s|
  {
    if s == [] then []
    else
      var n := Leading(s);
      if n < 4 || |s| == 4 then Rep(s[0], n) + Expand(s[n..])
      else Rep(s[0], Full(s[4])) + Expand(s[5..])
  }

  /** Every run of four is followed by its count. */
  ghost predicate Whole(s: seq<Byte>)
    decreases |s|
  {
    s == [] || (var n := Leading(s); if n < 4 then Whole(s[n..]) else |s| > 4 && Whole(s[5..]))
  }

  /** The run s begins with, read in one go. */
  lemma ReadLeading(u: Seen, s: seq<Byte>)
    requires s != [] && (u.len == 0 || (u.len < 4 && u.ch != s[0]))
    ensures ReadAll(u, s) == ReadAll(Seen(u.out + Rep(s[0], Leading(s)), s[0], Leading(s)), s[Leading(s)..])
  {
    hide ReadAll;
    var n := Leading(s);
    assert s[..n] == Rep(s[0], n);
    ReadRep(u, s[0], n);
    assert s == s[..n] + s[n..];
    ReadConcat(u, s[..n], s[n..]);
  }

  lemma ReadCount(v: Seen, c: Byte, t: seq<Byte>)
    requires v.len == 4 && v.ch == c && t != []
    ensures ReadAll(v, t) == ReadAll(Seen(v.out + Rep(c, t[0]), t[0], 0), t[1..])
  {
    hide ReadAll;
    assert t == [t[0]] + t[1..];
    ReadConcat(v, [t[0]], t[1..]);
    ReadOne(v, t[0]);
  }

  lemma ReadFull(u: Seen, s: seq<Byte>)
    requires s != [] && (u.len == 0 || (u.len < 4 && u.ch != s[0])) && Leading(s) == 4 && |s| > 4
    ensures ReadAll(u, s) == ReadAll(Seen(u.out + Rep(s[0], Full(s[4])), s[4], 0), s[5..])
  {
    hide ReadAll;
    ReadLeading(u, s);
    ReadCount(Seen(u.out + Rep(s[0], 4), s[0], 4), s[0], s[4..]);
    assert s[4..][1..] == s[5..];
    assert u.out + Rep(s[0], 4) + Rep(s[0], s[4]) == u.out + Rep(s[0], Full(s[4]));
  }

  lemma Joined(a: seq<Byte>, b: seq<Byte>, c: seq<Byte>)
    ensures a + b + c == a + (b + c)
  {
  }

  /** Both views agree: a block that ends outside a run of four expands to what it reads as. */
  lemma {:induction false} ExpandIsRead(u: Seen, s: seq<Byte>)
    requires u.len == 0 || (u.len < 4 && (s == [] || u.ch != s[0]))
    ensures ReadAll(u, s).len < 4 ==> Whole(s) && ReadAll(u, s).out == u.out + Expand(s)
    decreases |s|
  {
    if s == [] {
      assert u.out + [] == u.out;
    } else {
      var n := Leading(s);
      ReadLeading(u, s);
      if n < 4 {
        hide ReadAll, Read;
        ExpandIsRead(Seen(u.out + Rep(s[0], n), s[0], n), s[n..]);
        Joined(u.out, Rep(s[0], n), Expand(s[n..]));
      } else if |s| > 4 {
        hide ReadAll, Read;
        ReadFull(u, s);
        ExpandIsRead(Seen(u.out + Rep(s[0], Full(s[4])), s[4], 0), s[5..]);
        Joined(u.out, Rep(s[0], Full(s[4])), Expand(s[5..]));
      } else {
        assert s[4..] == [];
      }
    }
  }
}
