/** Undoing the move-to-front symbols: runs are expanded, positions looked up in the
    two-level list, bytes stored and counted. */
module MtfDecode {
  import opened Bits
  import opened Sequences
  import opened Radix
  import opened MtfTable
  import MTF = MoveToFront

  /** A list of positions in terms of bytes. */
  ghost function Bytes(maps: seq<Byte>, s: seq<Byte>): (r: seq<int>)
    requires |maps| == 256
    ensures |r| == |s| && forall i :: 0 <= i < |s| ==> r[i] == maps[s[i]] && 0 <= r[i] < 256
  {
    seq(|s|, i requires 0 <= i < |s| => maps[s[i]] as int)
  }

  ghost predicate WellFormed(n: nat, syms: seq<int>) {
    && 0 < n <= 256 && |syms| > 0 && syms[|syms| - 1] == n + 1
    && MTF.InAlphabet(n, syms[..|syms| - 1])
  }

  /** What the first k symbols mean. */
  ghost function After(n: nat, syms: seq<int>, k: nat): (u: MTF.Undo)
    requires WellFormed(n, syms) && k < |syms|
    ensures |u.list| == n
  {
    MTF.UndoFrom(MTF.Start(n), syms[..k])
  }

  lemma AfterNext(n: nat, syms: seq<int>, k: nat)
    requires WellFormed(n, syms) && k + 1 < |syms|
    ensures 0 <= syms[k] <= n && After(n, syms, k + 1) == MTF.UndoStep(After(n, syms, k), syms[k])
  {
    assert syms[..k + 1][..k] == syms[..k];
    assert syms[k] == syms[..|syms| - 1][k];
  }

  /** A run symbol at k with a place value the decoder refuses. */
  ghost predicate Heavy(n: nat, syms: seq<int>, k: nat)
    requires WellFormed(n, syms)
  {
    k + 1 < |syms| && syms[k] <= MTF.RUNB && After(n, syms, k).weight >= MTF.RUN_LIMIT
  }

  ghost function Length(u: MTF.Undo): nat { |u.out| + u.run }

  lemma {:induction false} LengthGrows(n: nat, syms: seq<int>, j: nat, k: nat)
    requires WellFormed(n, syms) && j <= k < |syms|
    ensures Length(After(n, syms, j)) <= Length(After(n, syms, k))
    decreases k
  {
    if j < k {
      LengthGrows(n, syms, j, k - 1);
      AfterNext(n, syms, k - 1);
      if syms[k - 1] <= MTF.RUNB { Nonnegative(syms[k - 1] + 1, After(n, syms, k - 1).weight); }
    }
  }

  lemma Nonnegative(d: nat, w: nat)
    ensures d * w >= 0
  {
  }

  /** The bytes the symbols stand for. */
  ghost function Meaning(n: nat, syms: seq<int>): (xs: seq<Byte>)
    requires WellFormed(n, syms)
  {
    MTF.Flush(After(n, syms, |syms| - 1)).out
  }

  ghost function Stored(small: bool, tt: seq<Word>, ll16: seq<Half>, n: nat): (s: seq<int>)
    requires n <= |tt| && n <= |ll16|
    ensures |s| == n && forall i :: 0 <= i < n ==> s[i] == if small then ll16[i] else tt[i]
  {
    seq(n, i requires 0 <= i < n => if small then ll16[i] as int else tt[i] as int)
  }

  /** The bytes stored so far, and how many there are of each. */
  ghost predicate Kept(small: bool, tt: seq<Word>, ll16: seq<Half>, unzftab: seq<int>, out: seq<int>) {
    && |out| <= |tt| && |out| <= |ll16| && |unzftab| == 256
    && Stored(small, tt, ll16, |out|) == out
    && (forall v :: 0 <= v < 256 ==> unzftab[v] == Equal(out, v))
  }

  method Store(small: bool, tt: array<Word>, ll16: array<Half>, nblock: nat, uc: Byte, ghost out: seq<int>)
    requires tt as object != ll16 && nblock == |out| < tt.Length && nblock < ll16.Length
    requires Stored(small, tt[..], ll16[..], |out|) == out
    modifies tt, ll16
    ensures Stored(small, tt[..], ll16[..], |out| + 1) == out + [uc]
  {
    assert forall i :: 0 <= i < nblock ==> out[i] == if small then ll16[i] as int else tt[i] as int;
    if small { ll16[nblock] := uc; } else { tt[nblock] := uc; }
  }

  lemma {:induction false} EqualRep(out: seq<int>, c: int, k: nat, v: int)
    ensures Equal(out + seq(k, _ => c), v) == Equal(out, v) + (if v == c then k else 0)
  {
    if k == 0 {
      assert out + seq(k, _ => c) == out;
    } else {
      EqualRep(out, c, k - 1, v);
      assert (out + seq(k, _ => c))[..|out| + k - 1] == out + seq(k - 1, _ => c);
    }
  }

  /** Stores a run of es copies, or finds there is no room. */
  method StoreRun(small: bool, tt: array<Word>, ll16: array<Half>, unzftab: array<int>, nblock0: nat, nblockMAX: nat,
      uc: Byte, es0: nat, ghost out: seq<int>)
    returns (ok: bool, nblock: nat)
    requires tt as object != ll16 && unzftab as object != tt && unzftab as object != ll16
    requires nblock0 == |out| <= nblockMAX <= tt.Length && nblockMAX <= ll16.Length
    requires Kept(small, tt[..], ll16[..], unzftab[..], out)
    modifies tt, ll16, unzftab
    ensures ok <==> nblock0 + es0 <= nblockMAX
    ensures ok ==> nblock == nblock0 + es0 && Kept(small, tt[..], ll16[..], unzftab[..], out + seq(es0, _ => uc))
  {
    hide Equal;
    nblock := nblock0;
    var es: int := es0;
    unzftab[uc] := unzftab[uc] + es;
    ghost var tab := unzftab[..];
    forall v | 0 <= v < 256 ensures tab[v] == Equal(out + seq(es0, _ => uc), v) { EqualRep(out, uc, es0, v); }
    ghost var done := out;
    while es > 0
      invariant 0 <= es <= es0 && nblock == nblock0 + (es0 - es) == |done| <= nblockMAX
      invariant done == out + seq(es0 - es, _ => uc)
      invariant unzftab[..] == tab && Stored(small, tt[..], ll16[..], |done|) == done
    {
      if nblock >= nblockMAX { return false, nblock; }
      Store(small, tt, ll16, nblock, uc, done);
      nblock := nblock + 1;
      es := es - 1;
      done := done + [uc];
    }
    ok := true;
  }

  lemma KeptOne(out: seq<int>, c: int, v: int)
    ensures Equal(out + [c], v) == Equal(out, v) + (if v == c then 1 else 0)
  {
    assert (out + [c])[..|out|] == out;
  }

  method StoreOne(small: bool, tt: array<Word>, ll16: array<Half>, unzftab: array<int>, nblock: nat, uc: Byte,
      ghost out: seq<int>)
    requires tt as object != ll16 && unzftab as object != tt && unzftab as object != ll16
    requires nblock == |out| < tt.Length && nblock < ll16.Length && Kept(small, tt[..], ll16[..], unzftab[..], out)
    modifies tt, ll16, unzftab
    ensures Kept(small, tt[..], ll16[..], unzftab[..], out + [uc])
  {
    ghost var tab := unzftab[..];
    forall v | 0 <= v < 256 ensures Equal(out + [uc], v) == tab[v] + (if v == uc then 1 else 0) { KeptOne(out, uc, v); }
    unzftab[uc] := unzftab[uc] + 1;
    Store(small, tt, ll16, nblock, uc, out);
  }

  /** The list in use is a prefix of the decoder's 256-entry list. */
  lemma FrontPrefix(l: seq<Byte>, n: nat, i: nat)
    requires i < n <= |l|
    ensures MTF.Front(l, i)[..n] == MTF.Front(l[..n], i)
  {
  }

  lemma RunStep(n: nat, syms: seq<int>, k: nat, es: int, N: nat)
    requires WellFormed(n, syms) && k + 1 < |syms| && syms[k] <= MTF.RUNB
    requires After(n, syms, k).run == es + 1 && After(n, syms, k).weight == N
    ensures After(n, syms, k + 1) == After(n, syms, k).(run := es + 1 + (syms[k] + 1) * N, weight := 2 * N)
  {
    AfterNext(n, syms, k);
  }

  lemma SymRange(n: nat, syms: seq<int>, k: nat)
    requires WellFormed(n, syms) && k < |syms|
    ensures 0 <= syms[k] <= n + 1 && (syms[k] == n + 1 <==> k == |syms| - 1)
    ensures syms[k] <= MTF.RUNB ==> k + 1 < |syms|
  {
    if k < |syms| - 1 { assert syms[k] == syms[..|syms| - 1][k]; }
  }

  lemma BytesRep(maps: seq<Byte>, out: seq<Byte>, x: Byte, es: nat)
    requires |maps| == 256
    ensures Bytes(maps, out + Rep(x, es)) == Bytes(maps, out) + seq(es, _ => (maps[x] as int))
  {
  }

  lemma MeaningLength(n: nat, syms: seq<int>, k: nat)
    requires WellFormed(n, syms) && k < |syms|
    ensures |Meaning(n, syms)| >= Length(After(n, syms, k))
  {
    LengthGrows(n, syms, k, |syms| - 1);
  }

  lemma SymRange0(n: nat, syms: seq<int>)
    requires WellFormed(n, syms)
    ensures 0 < |syms| && 0 < n <= 256
  {
  }

  lemma SymLengthFact(n: nat, syms: seq<int>, k: nat)
    requires WellFormed(n, syms) && k + 1 < |syms| && syms[k] > MTF.RUNB
    ensures Length(After(n, syms, k + 1)) == Length(After(n, syms, k)) + 1
  {
    AfterNext(n, syms, k);
  }
}
