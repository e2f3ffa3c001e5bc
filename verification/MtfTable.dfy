/** The decoder's move-to-front list, kept in sixteen segments of sixteen bytes that
    drift down through a 4096-byte array. */
module MtfTable {
  import opened Bits
  import MTF = MoveToFront

  const MTFA_SIZE := 4096
  const MTFL_SIZE := 16
  const TOP := MTFA_SIZE - 256

  /** The segments lie in order, apart, inside the array. */
  ghost predicate Laid(base: seq<int>) {
    && |base| == 16 && 0 <= base[0] && base[15] + 16 <= MTFA_SIZE
    && (forall i, j :: 0 <= i < j < 16 ==> base[i] + 16 * (j - i) <= base[j])
  }

  /** Where entry t of the list is kept. */
  function Cell(base: seq<int>, t: int): int
    requires |base| == 16 && 0 <= t < 256
  {
    base[t / 16] + t % 16
  }

  lemma CellRange(base: seq<int>, t: int)
    requires Laid(base) && 0 <= t < 256
    ensures t <= Cell(base, t) <= TOP + t && base[0] <= Cell(base, t)
  {
  }

  /** Different entries, different cells. */
  lemma CellOrder(base: seq<int>, t: int, u: int)
    requires Laid(base) && 0 <= t < u < 256
    ensures Cell(base, t) < Cell(base, u)
  {
  }

  ghost predicate Holds(a: seq<Byte>, base: seq<int>, l: seq<Byte>) {
    && |a| == MTFA_SIZE && Laid(base) && |l| == 256
    && (forall t :: 0 <= t < 256 ==> 0 <= Cell(base, t) < MTFA_SIZE && a[Cell(base, t)] == l[t])
  }

  lemma HoldsSizes(a: seq<Byte>, base: seq<int>, l: seq<Byte>)
    requires Holds(a, base, l)
    ensures |a| == MTFA_SIZE && |l| == 256 && Laid(base)
  {
  }

  lemma LaidSize(base: seq<int>)
    requires Laid(base)
    ensures |base| == 16
  {
  }

  // ---- near the front ----

  /** Only the first segment turns. */
  lemma NearHolds(a: seq<Byte>, a': seq<Byte>, base: seq<int>, l: seq<Byte>, nn: nat)
    requires Holds(a, base, l) && nn < 16 && |a'| == |a| && a'[base[0]] == a[base[0] + nn]
    requires forall p :: base[0] < p <= base[0] + nn ==> a'[p] == a[p - 1]
    requires forall p :: 0 <= p < base[0] || base[0] + nn < p < |a| ==> a'[p] == a[p]
    ensures Holds(a', base, MTF.Front(l, nn))
  {
    LaidSize(base);
    hide Laid;
    forall t | 0 <= t < 256 ensures 0 <= Cell(base, t) < MTFA_SIZE && a'[Cell(base, t)] == MTF.Front(l, nn)[t] {
      CellRange(base, t);
      assert a[Cell(base, nn)] == l[nn];
      if 0 < t <= nn { assert a[Cell(base, t - 1)] == l[t - 1]; }
      if t > nn { CellOrder(base, nn, t); }
    }
  }

  method TurnFour(mtfa: array<Byte>, z: int)
    requires 4 <= z < mtfa.Length
    modifies mtfa
    ensures forall p :: z - 4 < p <= z ==> mtfa[p] == old(mtfa[p - 1])
    ensures forall p :: 0 <= p <= z - 4 || z < p < mtfa.Length ==> mtfa[p] == old(mtfa[p])
  {
    mtfa[z] := mtfa[z - 1];
    mtfa[z - 1] := mtfa[z - 2];
    mtfa[z - 2] := mtfa[z - 3];
    mtfa[z - 3] := mtfa[z - 4];
  }

  method TurnNear(mtfa: array<Byte>, pp: int, nn0: nat) returns (uc: Byte)
    requires mtfa.Length == MTFA_SIZE && 0 <= pp && nn0 < 16 && pp + 16 <= MTFA_SIZE
    modifies mtfa
    ensures uc == old(mtfa[pp + nn0]) == mtfa[pp]
    ensures forall p :: pp < p <= pp + nn0 ==> mtfa[p] == old(mtfa[p - 1])
    ensures forall p :: 0 <= p < pp || pp + nn0 < p < MTFA_SIZE ==> mtfa[p] == old(mtfa[p])
  {
    ghost var a0 := mtfa[..];
    var nn: int := nn0;
    uc := mtfa[pp + nn];
    while nn > 3
      invariant 0 <= nn <= nn0
      invariant forall p :: pp + nn < p <= pp + nn0 ==> mtfa[p] == a0[p - 1]
      invariant forall p :: 0 <= p <= pp + nn || pp + nn0 < p < MTFA_SIZE ==> mtfa[p] == a0[p]
    {
      TurnFour(mtfa, pp + nn);
      nn := nn - 4;
    }
    while nn > 0
      invariant 0 <= nn <= nn0
      invariant forall p :: pp + nn < p <= pp + nn0 ==> mtfa[p] == a0[p - 1]
      invariant forall p :: 0 <= p <= pp + nn || pp + nn0 < p < MTFA_SIZE ==> mtfa[p] == a0[p]
    {
      mtfa[pp + nn] := mtfa[pp + nn - 1];
      nn := nn - 1;
    }
    mtfa[pp] := uc;
  }

  // ---- further back ----

  /** Every entry is still in its old cell, the moved one's segment turned. */
  ghost predicate Turned(a: seq<Byte>, b0: seq<int>, l: seq<Byte>, nn: int) {
    && |a| == MTFA_SIZE && |b0| == 16 && |l| == 256 && 16 <= nn < 256
    && (forall t :: 0 <= t < 256 ==> 0 <= Cell(b0, t) < MTFA_SIZE)
    && (forall t :: 0 <= t < 256 && !(16 * (nn / 16) <= t <= nn) ==> a[Cell(b0, t)] == l[t])
    && (forall t :: 16 * (nn / 16) < t <= nn ==> a[Cell(b0, t)] == l[t - 1])
  }

  /** Segments above m, below L, start one cell lower. */
  ghost predicate Lowered(base: seq<int>, b0: seq<int>, L: int, m: int) {
    && |base| == |b0| == 16 && 0 <= m <= L <= 15
    && (forall i :: 0 <= i < 16 ==>
                      base[i] == if m < i < L then b0[i] - 1 else if i == L == m then b0[i] + 1 else b0[i])
  }

  /** Segments above m, up to L, have taken the last byte of the one below. */
  ghost predicate Taken(a: seq<Byte>, b0: seq<int>, l: seq<Byte>, L: int, m: int) {
    && |a| == MTFA_SIZE && |b0| == 16 && |l| == 256 && 0 <= m <= L <= 15
    && (forall i :: m < i < L ==> 0 <= b0[i] - 1 < MTFA_SIZE && a[b0[i] - 1] == l[16 * i - 1])
    && (m < L ==> 0 <= b0[L] < MTFA_SIZE && a[b0[L]] == l[16 * L - 1])
  }

  ghost predicate Drift(a: seq<Byte>, base: seq<int>, b0: seq<int>, l: seq<Byte>, nn: int, m: int) {
    Laid(b0) && Turned(a, b0, l, nn) && Lowered(base, b0, nn / 16, m) && Taken(a, b0, l, nn / 16, m)
  }

  lemma DriftStart(a: seq<Byte>, a': seq<Byte>, b0: seq<int>, l: seq<Byte>, nn: int)
    requires Holds(a, b0, l) && 16 <= nn < 256 && |a'| == |a|
    requires forall p :: 0 <= p < |a| && !(b0[nn / 16] < p <= b0[nn / 16] + nn % 16) ==> a'[p] == a[p]
    requires forall p :: b0[nn / 16] < p <= b0[nn / 16] + nn % 16 ==> 0 <= p - 1 && p < |a| && a'[p] == a[p - 1]
    ensures Drift(a', b0[nn / 16 := b0[nn / 16] + 1], b0, l, nn, nn / 16)
  {
    var L := nn / 16;
    assert 16 * L <= nn && nn % 16 == nn - 16 * L;
    assert Cell(b0, 16 * L) == b0[L] && Cell(b0, nn) == b0[L] + nn % 16;
    forall t | 0 <= t < 256 ensures 0 <= Cell(b0, t) < MTFA_SIZE
      ensures a'[Cell(b0, t)] == if 16 * L < t <= nn then l[t - 1] else l[t]
    {
      CellRange(b0, t);
      if t < 16 * L { CellOrder(b0, t, 16 * L); }
      if t > nn { CellOrder(b0, nn, t); }
      if 16 * L < t <= nn { assert Cell(b0, t) == b0[L] + (t - 16 * L) && Cell(b0, t - 1) == Cell(b0, t) - 1; }
    }
  }

  lemma DriftSizes(a: seq<Byte>, base: seq<int>, b0: seq<int>, l: seq<Byte>, nn: int, m: int)
    requires Drift(a, base, b0, l, nn, m)
    ensures |a| == MTFA_SIZE && |base| == |b0| == 16 && 0 <= m <= nn / 16
    ensures m > 0 ==> 0 < base[m] <= MTFA_SIZE && 0 <= base[m - 1] && base[m - 1] + 15 < MTFA_SIZE
  {
  }

  /** Only the last entry of the segment below, or the first of the moved one's, can be in that cell. */
  lemma CellShared(b0: seq<int>, m: int, L: int, c: int, t: int)
    requires Laid(b0) && 0 < m <= L <= 15 && c == (if m == L then b0[m] else b0[m] - 1) && 0 <= t < 256
             && Cell(b0, t) == c
    ensures t == 16 * m - 1 || (t == 16 * m && m == L)
  {
    CellHead(b0, m);
    CellTail(b0, m - 1);
    assert b0[m - 1] + 16 <= b0[m];
    if t < 16 * m - 1 { CellOrder(b0, t, 16 * m - 1); }
    if t > 16 * m { CellOrder(b0, 16 * m, t); }
  }

  lemma CellHead(base: seq<int>, i: int)
    requires |base| == 16 && 0 <= i < 16
    ensures Cell(base, 16 * i) == base[i]
  {
  }

  lemma CellTail(base: seq<int>, i: int)
    requires |base| == 16 && 0 <= i < 15
    ensures Cell(base, 16 * (i + 1) - 1) == base[i] + 15
  {
  }

  /** The cell written by one step, and the entry that goes there. */
  lemma DriftCell(a: seq<Byte>, base: seq<int>, b0: seq<int>, l: seq<Byte>, nn: int, m: int)
    requires Drift(a, base, b0, l, nn, m) && m > 0
    ensures 0 <= base[m] - 1 < MTFA_SIZE && 0 <= base[m - 1] + 15 < MTFA_SIZE && a[base[m - 1] + 15] == l[16 * m - 1]
    ensures base[m] - 1 == if m == nn / 16 then b0[m] else b0[m] - 1
    ensures forall t :: 0 <= t < 256 && Cell(b0, t) == base[m] - 1 ==> t == 16 * m - 1 || (t == 16 * m && m == nn / 16)
  {
    hide Cell, Taken;
    CellHead(b0, m);
    CellTail(b0, m - 1);
    CellRange(b0, 16 * m - 1);
    CellRange(b0, 16 * m);
    assert a[Cell(b0, 16 * m - 1)] == l[16 * m - 1];
    assert b0[m - 1] + 16 <= b0[m];
    hide Turned, Laid;
    forall t | 0 <= t < 256 && Cell(b0, t) == base[m] - 1 ensures t == 16 * m - 1 || (t == 16 * m && m == nn / 16) {
      CellShared(b0, m, nn / 16, base[m] - 1, t);
    }
  }

  lemma DriftStep(a: seq<Byte>, base: seq<int>, b0: seq<int>, l: seq<Byte>, nn: int, m: int)
    requires Drift(a, base, b0, l, nn, m) && m > 0
    ensures 0 <= base[m] - 1 < |a| && 0 <= base[m - 1] + 15 < |a|
    ensures Drift(a[base[m] - 1 := a[base[m - 1] + 15]], base[m := base[m] - 1], b0, l, nn, m - 1)
  {
    hide Turned, Taken, Laid, Cell;
    DriftSizes(a, base, b0, l, nn, m);
    DriftCell(a, base, b0, l, nn, m);
    StepLowered(base, b0, nn / 16, m);
    StepTurned(a, b0, l, nn, m, base[m] - 1);
    StepTaken(a, b0, l, nn / 16, m, base[m] - 1);
  }

  lemma StepLowered(base: seq<int>, b0: seq<int>, L: int, m: int)
    requires Lowered(base, b0, L, m) && m > 0
    ensures Lowered(base[m := base[m] - 1], b0, L, m - 1)
  {
  }

  lemma StepTurned(a: seq<Byte>, b0: seq<int>, l: seq<Byte>, nn: int, m: int, c: int)
    requires Turned(a, b0, l, nn) && 0 < m <= nn / 16 && 0 <= c < |a|
    requires forall t :: 0 <= t < 256 && Cell(b0, t) == c ==> t == 16 * m - 1 || (t == 16 * m && m == nn / 16)
    ensures Turned(a[c := l[16 * m - 1]], b0, l, nn)
  {
  }

  lemma StepTaken(a: seq<Byte>, b0: seq<int>, l: seq<Byte>, L: int, m: int, c: int)
    requires Taken(a, b0, l, L, m) && Laid(b0) && 0 < m && c == if m == L then b0[m] else b0[m] - 1
    requires 0 <= c < |a|
    ensures Taken(a[c := l[16 * m - 1]], b0, l, L, m - 1)
  {
    forall i | m - 1 < i < L ensures 0 <= b0[i] - 1 < MTFA_SIZE && a[c := l[16 * m - 1]][b0[i] - 1] == l[16 * i - 1] {
      assert b0[m] <= b0[i];
    }
  }

  lemma FinalLaid(base: seq<int>, b0: seq<int>, L: int)
    requires Laid(b0) && b0[0] > 0 && 1 <= L <= 15
    requires |base| == 16 && forall i :: 0 <= i < 16 ==> base[i] == if i < L then b0[i] - 1 else b0[i]
    ensures Laid(base)
  {
  }

  lemma DriftFinal(a: seq<Byte>, base: seq<int>, b0: seq<int>, l: seq<Byte>, nn: int)
    requires Drift(a, base, b0, l, nn, 0) && b0[0] > 0
    ensures |base| == |b0| == 16 && base[0] == b0[0] && 0 <= base[0] - 1 < |a| == MTFA_SIZE && |l| == 256
            && 16 <= nn < 256
    ensures forall i :: 0 <= i < 16 ==> base[0 := base[0] - 1][i] == if i < nn / 16 then b0[i] - 1 else b0[i]
    ensures Laid(base[0 := base[0] - 1])
    ensures Laid(b0) && Turned(a, b0, l, nn) && Taken(a, b0, l, nn / 16, 0)
  {
    assert 1 <= nn / 16 <= 15 && |l| == 256;
    hide Turned;
    CellRange(b0, 0);
    FinalLaid(base[0 := base[0] - 1], b0, nn / 16);
  }

  /** The whole move: segments below the entry's have drifted down one cell. */
  lemma DriftEnd(a: seq<Byte>, base: seq<int>, b0: seq<int>, l: seq<Byte>, nn: int)
    requires Drift(a, base, b0, l, nn, 0) && b0[0] > 0
    ensures base[0] == b0[0] && 0 <= base[0] - 1 < |a|
    ensures Holds(a[base[0] - 1 := l[nn]], base[0 := base[0] - 1], MTF.Front(l, nn))
  {
    hide Turned, Taken, Laid, MTF.Front, Cell, Drift, Lowered;
    DriftFinal(a, base, b0, l, nn);
    var base' := base[0 := base[0] - 1];
    forall t | 0 <= t < 256 ensures 0 <= Cell(base', t) < MTFA_SIZE
      && a[base[0] - 1 := l[nn]][Cell(base', t)] == MTF.Front(l, nn)[t] {
      DriftEndCell(a, b0, l, nn, base', t);
    }
  }

  lemma DriftEndCell(a: seq<Byte>, b0: seq<int>, l: seq<Byte>, nn: int, base': seq<int>, t: int)
    requires Turned(a, b0, l, nn) && Taken(a, b0, l, nn / 16, 0) && Laid(b0) && 0 < b0[0] && b0[0] - 1 < |a|
             && 0 <= t < 256
    requires |base'| == 16 && forall i :: 0 <= i < 16 ==> base'[i] == if i < nn / 16 then b0[i] - 1 else b0[i]
    ensures 0 <= Cell(base', t) < MTFA_SIZE && a[b0[0] - 1 := l[nn]][Cell(base', t)] == MTF.Front(l, nn)[t]
  {
    hide Turned, Taken, Laid, MTF.Front;
    var L, i, j := nn / 16, t / 16, t % 16;
    assert t == 16 * i + j && Cell(base', t) == base'[i] + j;
    if j > 0 {
      BodyCell(a, b0, l, nn, L, base', i, j);
    } else {
      HeadCell(a, b0, l, nn, L, base', i);
    }
  }

  lemma CellBody(base: seq<int>, i: int, j: int)
    requires |base| == 16 && 0 <= i < 16 && 0 <= j < 16
    ensures Cell(base, 16 * i + j) == base[i] + j
  {
  }

  /** Not the first byte of its segment. */
  lemma BodyCell(a: seq<Byte>, b0: seq<int>, l: seq<Byte>, nn: int, L: int, base': seq<int>, i: int, j: int)
    requires Turned(a, b0, l, nn) && Laid(b0) && 0 < b0[0] && b0[0] - 1 < |a| && 0 <= i < 16 && 0 < j < 16
             && L == nn / 16
    requires |base'| == 16 && base'[i] == if i < L then b0[i] - 1 else b0[i]
    ensures 0 <= base'[i] + j < MTFA_SIZE && a[b0[0] - 1 := l[nn]][base'[i] + j] == MTF.Front(l, nn)[16 * i + j]
  {
    hide Laid, MTF.Front, Cell;
    var t := 16 * i + j;
    CellRange(b0, t);
    CellRange(b0, t - 1);
    CellBody(b0, i, j);
    CellBody(b0, i, j - 1);
    assert 16 * L <= nn < 16 * L + 16;
    if i < L {
      assert a[Cell(b0, t - 1)] == l[t - 1];
    } else {
      assert a[Cell(b0, t)] == if 16 * L < t <= nn then l[t - 1] else l[t];
    }
  }

  /** The first byte of its segment. */
  lemma HeadCell(a: seq<Byte>, b0: seq<int>, l: seq<Byte>, nn: int, L: int, base': seq<int>, i: int)
    requires Turned(a, b0, l, nn) && Taken(a, b0, l, L, 0) && Laid(b0) && 0 < b0[0] && b0[0] - 1 < |a| && 0 <= i < 16
             && L == nn / 16
    requires |base'| == 16 && base'[i] == if i < L then b0[i] - 1 else b0[i]
    ensures 0 <= base'[i] < MTFA_SIZE && a[b0[0] - 1 := l[nn]][base'[i]] == MTF.Front(l, nn)[16 * i]
  {
    hide Cell, MTF.Front;
    assert 16 * L <= nn < 16 * L + 16;
    LaidFirst(b0, i);
    CellRange(b0, 16 * i);
    CellHead(b0, i);
    hide Laid;
    if i > L {
      assert a[Cell(b0, 16 * i)] == l[16 * i];
      hide Turned, Taken;
      assert MTF.Front(l, nn)[16 * i] == l[16 * i];
    } else {
      hide Turned;
      if i > 0 { assert MTF.Front(l, nn)[16 * i] == l[16 * i - 1]; }
    }
  }

  lemma LaidFirst(base: seq<int>, i: int)
    requires Laid(base) && 0 <= i < 16
    ensures base[0] <= base[i] && (i > 0 ==> base[0] < base[i])
  {
  }

  // ---- starting again at the top ----

  /** Entries from t on have been copied to the top of the array. */
  ghost predicate Rebuilding(a: seq<Byte>, base: seq<int>, b0: seq<int>, l: seq<Byte>, ii: int, t: int) {
    && |a| == MTFA_SIZE && Laid(b0) && |base| == 16 && |l| == 256 && 0 <= t <= 256 && -1 <= ii <= 15
    && (forall i :: 0 <= i <= ii ==> base[i] == b0[i])
    && (forall i :: ii < i < 16 ==> base[i] == TOP + 16 * i)
    && (forall u :: t <= u < 256 ==> a[TOP + u] == l[u])
    && (forall u :: 0 <= u < t ==> 0 <= Cell(b0, u) < MTFA_SIZE && a[Cell(b0, u)] == l[u])
  }

  /** No entry still to be copied is overwritten. */
  lemma RebuildStep(a: seq<Byte>, base: seq<int>, b0: seq<int>, l: seq<Byte>, ii: int, t: int)
    requires Rebuilding(a, base, b0, l, ii, t) && 0 < t && ii >= 0 && 16 * ii <= t - 1 < 16 * ii + 16
    ensures 0 <= base[ii] + (t - 1) % 16 < |a| && TOP + t - 1 < |a|
    ensures Rebuilding(a[TOP + t - 1 := a[base[ii] + (t - 1) % 16]], base, b0, l, ii, t - 1)
  {
    assert (t - 1) / 16 == ii && Cell(b0, t - 1) == base[ii] + (t - 1) % 16;
    var a' := a[TOP + t - 1 := a[base[ii] + (t - 1) % 16]];
    forall u | 0 <= u < t - 1 ensures 0 <= Cell(b0, u) < MTFA_SIZE && a'[Cell(b0, u)] == l[u] {
      CellRange(b0, u);
    }
  }

  lemma RebuildSizes(a: seq<Byte>, base: seq<int>, b0: seq<int>, l: seq<Byte>, ii: int, t: int)
    requires Rebuilding(a, base, b0, l, ii, t)
    ensures |a| == MTFA_SIZE && |base| == 16
  {
  }

  lemma RebuildStart(a: seq<Byte>, base: seq<int>, l: seq<Byte>)
    requires Holds(a, base, l)
    ensures Rebuilding(a, base, base, l, 15, 256)
  {
  }

  lemma RebuildSegment(a: seq<Byte>, base: seq<int>, b0: seq<int>, l: seq<Byte>, ii: int)
    requires Rebuilding(a, base, b0, l, ii, 16 * ii) && 0 <= ii <= 15
    ensures Rebuilding(a, base[ii := TOP + 16 * ii], b0, l, ii - 1, 16 * ii)
  {
  }

  lemma RebuildEnd(a: seq<Byte>, base: seq<int>, b0: seq<int>, l: seq<Byte>)
    requires Rebuilding(a, base, b0, l, -1, 0)
    ensures Holds(a, base, l) && base[0] == TOP
  {
    forall t | 0 <= t < 256 ensures 0 <= Cell(base, t) < MTFA_SIZE && a[Cell(base, t)] == l[t] {
      assert Cell(base, t) == TOP + t;
    }
  }

  class Table {
    const mtfa: array<Byte>
    const mtfbase: array<int>
    ghost var list: seq<Byte>

    ghost predicate Valid()
      reads this, mtfa, mtfbase
    {
      Holds(mtfa[..], mtfbase[..], list) && mtfbase.Length == 16 && mtfbase[0] > 0
    }

    constructor ()
      ensures Valid() && list == MTF.Identity(256) && fresh(mtfa) && fresh(mtfbase) && mtfa as object != mtfbase
      ensures mtfa.Length == MTFA_SIZE && mtfbase.Length == 16
    {
      mtfa := new Byte[MTFA_SIZE];
      mtfbase := new int[16];
      new;
      Reset();
    }

    /** The list 0, 1, ..., 255 in the top segments. */
    method Reset()
      requires mtfa.Length == MTFA_SIZE && mtfbase.Length == 16 && mtfa as object != mtfbase
      modifies this`list, mtfa, mtfbase
      ensures Valid() && list == MTF.Identity(256)
    {
      hide Holds;
      list := MTF.Identity(256);
      var kk := MTFA_SIZE - 1;
      var ii := 15;
      while ii >= 0
        invariant -1 <= ii <= 15 && kk == TOP + 16 * ii + 15 && list == MTF.Identity(256)
        invariant forall i :: ii < i < 16 ==> mtfbase[i] == TOP + 16 * i
        invariant forall k :: kk < k < MTFA_SIZE ==> mtfa[k] == k - TOP
      {
        var jj := MTFL_SIZE - 1;
        while jj >= 0
          invariant -1 <= jj <= 15 && kk == TOP + 16 * ii + jj && list == MTF.Identity(256)
          invariant forall i :: ii < i < 16 ==> mtfbase[i] == TOP + 16 * i
          invariant forall k :: kk < k < MTFA_SIZE ==> mtfa[k] == k - TOP
        {
          mtfa[kk] := ii * MTFL_SIZE + jj;
          kk := kk - 1;
          jj := jj - 1;
        }
        mtfbase[ii] := kk + 1;
        ii := ii - 1;
      }
      HoldsIdentity(mtfa[..], mtfbase[..]);
    }

    /** The byte at the front. */
    method First() returns (c: Byte)
      requires Valid()
      ensures c == list[0]
    {
      assert Cell(mtfbase[..], 0) == mtfbase[0];
      c := mtfa[mtfbase[0]];
    }

    /** Takes entry nn to the front. */
    method Take(nn: nat) returns (uc: Byte)
      requires Valid() && nn < 256
      modifies this, mtfa, mtfbase
      ensures Valid() && |old(list)| == 256 && uc == old(list)[nn] && list == MTF.Front(old(list), nn)
    {
      hide Holds, Laid;
      ghost var l, b0, a0 := list, mtfbase[..], mtfa[..];
      HoldsSizes(a0, b0, l);
      CellRange(b0, 0);
      EntryAt(a0, b0, l, nn);
      if nn < MTFL_SIZE {
        var pp := mtfbase[0];
        EntryAt(a0, b0, l, 15);
        uc := TurnNear(mtfa, pp, nn);
        NearHolds(a0, mtfa[..], b0, l, nn);
        assert mtfbase[..] == b0;
      } else {
        uc := TakeFar(nn, l, b0);
      }
      list := MTF.Front(l, nn);
    }

    /** The general case: the segments below the entry's each hand their last byte up. */
    method TakeFar(nn: nat, ghost l: seq<Byte>, ghost b0: seq<int>) returns (uc: Byte)
      requires Holds(mtfa[..], mtfbase[..], l) && mtfbase.Length == 16 && mtfbase[..] == b0 && b0[0] > 0
               && 16 <= nn < 256
      modifies mtfa, mtfbase
      ensures Holds(mtfa[..], mtfbase[..], MTF.Front(l, nn)) && mtfbase[0] > 0 && |l| == 256 && uc == l[nn]
    {
      hide Holds, Laid, Drift;
      ghost var a0 := mtfa[..];
      HoldsSizes(a0, b0, l);
      EntryAt(a0, b0, l, nn);
      var lno, off := nn / MTFL_SIZE, nn % MTFL_SIZE;
      var pp := mtfbase[lno] + off;
      uc := mtfa[pp];
      CellRange(b0, 16 * lno);
      while pp > mtfbase[lno]
        invariant b0[lno] <= pp <= b0[lno] + off < MTFA_SIZE && mtfbase[..] == b0
        invariant forall p :: pp < p <= b0[lno] + off ==> mtfa[p] == a0[p - 1]
        invariant forall p :: 0 <= p <= pp || b0[lno] + off < p < MTFA_SIZE ==> mtfa[p] == a0[p]
      {
        mtfa[pp] := mtfa[pp - 1];
        pp := pp - 1;
      }
      DriftStart(a0, mtfa[..], b0, l, nn);
      mtfbase[lno] := mtfbase[lno] + 1;
      assert mtfbase[..] == b0[nn / 16 := b0[nn / 16] + 1];
      while lno > 0
        invariant Drift(mtfa[..], mtfbase[..], b0, l, nn, lno) && mtfbase.Length == 16
      {
        ghost var a1, base1 := mtfa[..], mtfbase[..];
        DriftSizes(a1, base1, b0, l, nn, lno);
        DriftStep(a1, base1, b0, l, nn, lno);
        mtfbase[lno] := mtfbase[lno] - 1;
        mtfa[mtfbase[lno]] := mtfa[mtfbase[lno - 1] + MTFL_SIZE - 1];
        assert mtfbase[..] == base1[lno := base1[lno] - 1];
        assert mtfa[..] == a1[base1[lno] - 1 := a1[base1[lno - 1] + 15]];
        lno := lno - 1;
      }
      ghost var a2, base2 := mtfa[..], mtfbase[..];
      DriftEnd(a2, base2, b0, l, nn);
      mtfbase[0] := mtfbase[0] - 1;
      mtfa[mtfbase[0]] := uc;
      assert mtfbase[..] == base2[0 := base2[0] - 1] && mtfa[..] == a2[base2[0] - 1 := l[nn]];
      if mtfbase[0] == 0 { Rebuild(MTF.Front(l, nn)); }
    }

    /** The lowest segment has reached the bottom: all sixteen move back to the top. */
    method Rebuild(ghost l: seq<Byte>)
      requires Holds(mtfa[..], mtfbase[..], l)
      modifies mtfa, mtfbase
      ensures Holds(mtfa[..], mtfbase[..], l) && mtfbase.Length == 16 && mtfbase[0] == TOP
    {
      hide Holds, Laid, Rebuilding;
      ghost var b0 := mtfbase[..];
      RebuildStart(mtfa[..], b0, l);
      var kk := MTFA_SIZE - 1;
      var ii := 15;
      while ii >= 0
        invariant -1 <= ii <= 15 && kk == TOP + 16 * ii + 15
        invariant Rebuilding(mtfa[..], mtfbase[..], b0, l, ii, 16 * ii + 16)
      {
        var jj := MTFL_SIZE - 1;
        while jj >= 0
          invariant -1 <= jj <= 15 && kk == TOP + 16 * ii + jj
          invariant Rebuilding(mtfa[..], mtfbase[..], b0, l, ii, 16 * ii + jj + 1)
        {
          ghost var a1 := mtfa[..];
          RebuildSizes(a1, mtfbase[..], b0, l, ii, 16 * ii + jj + 1);
          RebuildStep(a1, mtfbase[..], b0, l, ii, 16 * ii + jj + 1);
          assert (16 * ii + jj) % 16 == jj;
          mtfa[kk] := mtfa[mtfbase[ii] + jj];
          assert mtfa[..] == a1[TOP + 16 * ii + jj := a1[mtfbase[ii] + jj]];
          kk := kk - 1;
          jj := jj - 1;
        }
        ghost var base1 := mtfbase[..];
        RebuildSizes(mtfa[..], base1, b0, l, ii, 16 * ii);
        RebuildSegment(mtfa[..], base1, b0, l, ii);
        mtfbase[ii] := kk + 1;
        assert mtfbase[..] == base1[ii := TOP + 16 * ii];
        ii := ii - 1;
      }
      RebuildSizes(mtfa[..], mtfbase[..], b0, l, -1, 0);
      RebuildEnd(mtfa[..], mtfbase[..], b0, l);
    }
  }

  lemma EntryAt(a: seq<Byte>, base: seq<int>, l: seq<Byte>, t: int)
    requires Holds(a, base, l) && 0 <= t < 256
    ensures |base| == 16 && 0 <= base[t / 16] && base[t / 16] + t % 16 < |a| && a[base[t / 16] + t % 16] == l[t]
  {
    assert a[Cell(base, t)] == l[t];
  }

  lemma HoldsIdentity(a: seq<Byte>, base: seq<int>)
    requires |a| == MTFA_SIZE && |base| == 16
    requires forall i :: 0 <= i < 16 ==> base[i] == TOP + 16 * i
    requires forall k :: TOP <= k < MTFA_SIZE ==> a[k] == k - TOP
    ensures Holds(a, base, MTF.Identity(256))
  {
    forall t | 0 <= t < 256 ensures 0 <= Cell(base, t) < MTFA_SIZE && a[Cell(base, t)] == t {
      assert Cell(base, t) == TOP + t;
    }
  }
}
