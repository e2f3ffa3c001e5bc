/** Choosing the coding tables: groups of fifty symbols pick the cheapest of up to six
    tables, and the tables are remade from what was picked, four times over. */
module TableChoice {
  import opened Bits
  import opened HuffmanForest
  import opened HuffmanCodes
  import opened HuffmanLengths
  import opened BlockFormat

  const LESSER_ICOST := 0
  const GREATER_ICOST := 15
  const N_ITERS := 4
  const MAX_LEN := 17

  // ---- costs ----

  /** What symbols lo..hi cost under a table. */
  ghost function Cost(lens: seq<int>, syms: seq<int>, lo: int, hi: int): (c: int)
    requires 0 <= lo <= hi <= |syms| && forall k :: 0 <= k < |syms| ==> 0 <= syms[k] < |lens|
    decreases hi - lo
  {
    if lo == hi then 0 else Cost(lens, syms, lo, hi - 1) + lens[syms[hi - 1]]
  }

  lemma {:induction false} CostBound(lens: seq<int>, syms: seq<int>, lo: int, hi: int)
    requires 0 <= lo <= hi <= |syms| && forall k :: 0 <= k < |syms| ==> 0 <= syms[k] < |lens|
    requires forall v :: 0 <= v < |lens| ==> 0 <= lens[v] <= MAX_LEN
    ensures 0 <= Cost(lens, syms, lo, hi) <= MAX_LEN * (hi - lo)
    decreases hi - lo
  {
    if lo < hi { CostBound(lens, syms, lo, hi - 1); }
  }

  /** Rows of lengths over one alphabet. */
  ghost predicate Rows(lens: seq<seq<int>>, n: nat, alphaSize: nat, top: int) {
    && |lens| == n && (forall t :: 0 <= t < n ==> |lens[t]| == alphaSize)
    && (forall t, v :: 0 <= t < n && 0 <= v < alphaSize ==> 0 <= lens[t][v] <= top)
  }

  ghost predicate InRange(syms: seq<int>, alphaSize: nat) {
    forall k :: 0 <= k < |syms| ==> 0 <= syms[k] < alphaSize
  }

  /** Two lengths side by side in one word. */
  function Pack(lo: nat, hi: nat): nat { BitOr(TwoHalves(0, hi), lo) }

  lemma PackIs(lo: nat, hi: nat)
    requires lo < 0x1_0000
    ensures Pack(lo, hi) == TwoHalves(lo, hi)
  {
    Pow2Constants();
    hide BitOr;
    BitOrDisjoint(hi, lo, 16);
  }

  lemma UnpackIs(lo: nat, hi: nat)
    requires lo < 0x1_0000
    ensures TwoHalves(lo, hi) % 0x1_0000 == lo && TwoHalves(lo, hi) / 0x1_0000 == hi
  {
  }

  /** The auxiliary table of packed lengths for one pair of tables. */
  method PackTable(a: seq<int>, b: seq<int>) returns (packed: seq<nat>)
    requires |a| == |b| && (forall v :: 0 <= v < |a| ==> 0 <= a[v] <= MAX_LEN && 0 <= b[v] <= MAX_LEN)
    ensures |packed| == |a| && forall v :: 0 <= v < |a| ==> packed[v] == TwoHalves(a[v], b[v])
  {
    hide TwoHalves, Pack;
    packed := [];
    for v := 0 to |a|
      invariant |packed| == v && forall u :: 0 <= u < v ==> packed[u] == TwoHalves(a[u], b[u])
    {
      PackIs(a[v], b[v]);
      packed := packed + [Pack(a[v], b[v])];
    }
  }

  /** Fifty packed additions keep the two sums apart, and no half overflows. */
  method PackedCosts(packed: seq<nat>, syms: seq<int>, gs: int, ghost a: seq<int>, ghost b: seq<int>)
    returns (lo: int, hi: int)
    requires |packed| == |a| == |b| && InRange(syms, |a|) && 0 <= gs && gs + GROUP <= |syms|
    requires forall v :: 0 <= v < |a| ==>
                           0 <= a[v] <= MAX_LEN && 0 <= b[v] <= MAX_LEN && packed[v] == TwoHalves(a[v], b[v])
    ensures lo == Cost(a, syms, gs, gs + GROUP) && hi == Cost(b, syms, gs, gs + GROUP)
  {
    var sum := 0;
    for nn := 0 to GROUP
      invariant sum == Cost(b, syms, gs, gs + nn) * 0x1_0000 + Cost(a, syms, gs, gs + nn)
    {
      sum := sum + packed[syms[gs + nn]];
      assert sum < 0x1_0000_0000 by {
        CostBound(a, syms, gs, gs + nn + 1);
        CostBound(b, syms, gs, gs + nn + 1);
      }
    }
    CostBound(a, syms, gs, gs + GROUP);
    CostBound(b, syms, gs, gs + GROUP);
    UnpackIs(Cost(a, syms, gs, gs + GROUP), Cost(b, syms, gs, gs + GROUP));
    lo, hi := sum % 0x1_0000, sum / 0x1_0000;
  }

  ghost predicate CostsAre(cost: seq<int>, lens: seq<seq<int>>, syms: seq<int>, lo: int, hi: int, alphaSize: nat) {
    && |cost| == |lens| && 0 <= lo <= hi <= |syms| && InRange(syms, alphaSize)
    && (forall t :: 0 <= t < |lens| ==> |lens[t]| == alphaSize && cost[t] == Cost(lens[t], syms, lo, hi))
  }

  /** The version for all situations: symbol by symbol, table by table. */
  method SlowCosts(lens: seq<seq<int>>, syms: seq<int>, gs: int, ge: int, ghost alphaSize: nat) returns (cost: seq<int>)
    requires Rows(lens, |lens|, alphaSize, MAX_LEN) && InRange(syms, alphaSize) && 0 <= gs <= ge < |syms|
    ensures CostsAre(cost, lens, syms, gs, ge + 1, alphaSize)
  {
    cost := seq(|lens|, _ => 0);
    for i := gs to ge + 1
      invariant CostsAre(cost, lens, syms, gs, i, alphaSize)
    {
      ghost var c0 := cost;
      for t := 0 to |lens|
        invariant |cost| == |lens|
        invariant forall u :: 0 <= u < t ==> cost[u] == c0[u] + lens[u][syms[i]]
        invariant forall u :: t <= u < |lens| ==> cost[u] == c0[u]
      {
        cost := cost[t := cost[t] + lens[t][syms[i]]];
      }
    }
  }

  /** The packed version for six tables and a full group; it yields the same costs. */
  method FastCosts(lens: seq<seq<int>>, p01: seq<nat>, p23: seq<nat>, p45: seq<nat>, syms: seq<int>, gs: int,
      ghost alphaSize: nat) returns (cost: seq<int>)
    requires Rows(lens, 6, alphaSize, MAX_LEN) && InRange(syms, alphaSize) && 0 <= gs && gs + GROUP <= |syms|
    requires |p01| == |p23| == |p45| == alphaSize
    requires forall v :: 0 <= v < alphaSize ==>
                           p01[v] == TwoHalves(lens[0][v], lens[1][v]) && p23[v] == TwoHalves(lens[2][v], lens[3][v])
                           && p45[v] == TwoHalves(lens[4][v], lens[5][v])
    ensures CostsAre(cost, lens, syms, gs, gs + GROUP, alphaSize)
  {
    hide TwoHalves, Cost;
    var c0, c1 := PackedCosts(p01, syms, gs, lens[0], lens[1]);
    var c2, c3 := PackedCosts(p23, syms, gs, lens[2], lens[3]);
    var c4, c5 := PackedCosts(p45, syms, gs, lens[4], lens[5]);
    cost := [c0, c1, c2, c3, c4, c5];
  }

  /** The first cheapest. */
  ghost predicate Cheapest(cost: seq<int>, bt: int) {
    && 0 <= bt < |cost|
    && (forall t :: 0 <= t < |cost| ==> cost[bt] <= cost[t])
    && (forall t :: 0 <= t < bt ==> cost[bt] < cost[t])
  }

  method PickCheapest(cost: seq<int>) returns (bt: int)
    requires 0 < |cost| && forall t :: 0 <= t < |cost| ==> cost[t] < 999999999
    ensures Cheapest(cost, bt)
  {
    var bc := 999999999;
    bt := -1;
    for t := 0 to |cost|
      invariant t == 0 ==> bc == 999999999
      invariant t > 0 ==> 0 <= bt < t && bc == cost[bt]
      invariant forall u :: 0 <= u < t ==> bc <= cost[u]
      invariant t == 0 ==> bt == -1
      invariant forall u :: 0 <= u < bt && u < t ==> bc < cost[u]
    {
      if cost[t] < bc { bc, bt := cost[t], t; }
    }
  }

  // ---- frequencies per table ----

  /** How often v occurs among the first k symbols in groups that use table t. */
  ghost function Tally(syms: seq<int>, sels: seq<Byte>, t: int, v: int, k: nat): (c: nat)
    requires k <= |syms| && Groups(k) <= |sels|
  {
    if k == 0 then 0
    else
      GroupsMono(k - 1, k);
      GroupInRange(k, k - 1);
      Tally(syms, sels, t, v, k - 1) + (if sels[(k - 1) / GROUP] == t && syms[k - 1] == v then 1 else 0)
  }

  lemma GroupsMono(j: nat, k: nat)
    requires j <= k
    ensures Groups(j) <= Groups(k)
  {
  }

  lemma {:induction false} TallyMore(syms: seq<int>, sels: seq<Byte>, s: Byte, t: int, v: int, k: nat)
    requires k <= |syms| && Groups(k) <= |sels|
    ensures Tally(syms, sels + [s], t, v, k) == Tally(syms, sels, t, v, k)
  {
    if k > 0 {
      GroupsMono(k - 1, k);
      GroupInRange(k, k - 1);
      TallyMore(syms, sels, s, t, v, k - 1);
    }
  }

  ghost function TallyRow(syms: seq<int>, sels: seq<Byte>, t: int, alphaSize: nat, k: nat): (r: seq<int>)
    requires k <= |syms| && Groups(k) <= |sels|
    ensures |r| == alphaSize && forall v :: 0 <= v < alphaSize ==> r[v] == Tally(syms, sels, t, v, k)
  {
    seq(alphaSize, v requires 0 <= v < alphaSize => Tally(syms, sels, t, v, k))
  }

  ghost function SumAll(s: seq<int>): int {
    if s == [] then 0 else SumAll(s[..|s| - 1]) + s[|s| - 1]
  }

  lemma {:induction false} SumBump(s: seq<int>, v: int)
    requires 0 <= v < |s|
    ensures SumAll(s[v := s[v] + 1]) == SumAll(s) + 1
  {
    var k := |s| - 1;
    if v == k {
      assert s[v := s[v] + 1][..k] == s[..k];
    } else {
      assert s[v := s[v] + 1][..k] == s[..k][v := s[v] + 1];
      SumBump(s[..k], v);
    }
  }

  lemma {:induction false} SumZero(n: nat)
    ensures SumAll(seq(n, _ => 0)) == 0
  {
    if n > 0 {
      assert seq(n, _ => 0)[..n - 1] == seq(n - 1, _ => 0);
      SumZero(n - 1);
    }
  }

  /** No table is given more symbols than there are. */
  lemma {:induction false} TallySum(syms: seq<int>, sels: seq<Byte>, t: int, alphaSize: nat, k: nat)
    requires k <= |syms| && Groups(k) <= |sels| && InRange(syms, alphaSize)
    ensures SumAll(TallyRow(syms, sels, t, alphaSize, k)) <= k
  {
    if k == 0 {
      assert TallyRow(syms, sels, t, alphaSize, 0) == seq(alphaSize, _ => 0);
      SumZero(alphaSize);
    } else {
      GroupsMono(k - 1, k);
      GroupInRange(k, k - 1);
      TallySum(syms, sels, t, alphaSize, k - 1);
      var r0, r, v := TallyRow(syms, sels, t, alphaSize, k - 1), TallyRow(syms, sels, t, alphaSize, k), syms[k - 1];
      if sels[(k - 1) / GROUP] == t {
        assert r == r0[v := r0[v] + 1];
        SumBump(r0, v);
      } else {
        assert r == r0;
      }
    }
  }

  lemma {:induction false} TotalBound(s: seq<int>)
    requires forall v :: 0 <= v < |s| ==> s[v] >= 0
    ensures Total(s) <= SumAll(s) + |s|
  {
    if s != [] { TotalBound(s[..|s| - 1]); }
  }

  /** Table t is the first of the cheapest for group g. */
  ghost predicate BestFor(lens: seq<seq<int>>, syms: seq<int>, t: int, g: int, alphaSize: nat) {
    exists cost :: Cheapest(cost, t) && CostsAre(cost, lens, syms, GROUP * g, GroupEnd(|syms|, g), alphaSize)
  }

  /** Every group has got the table that is cheapest for it. */
  ghost predicate BestChosen(lens: seq<seq<int>>, syms: seq<int>, sels: seq<Byte>, alphaSize: nat) {
    && InRange(syms, alphaSize) && |sels| <= Groups(|syms|)
    && (forall g :: 0 <= g < |sels| ==> BestFor(lens, syms, sels[g], g, alphaSize))
  }

  function GroupEnd(n: nat, g: int): int {
    if GROUP * g + GROUP <= n then GROUP * g + GROUP else n
  }

  ghost predicate FreqsAre(rfreq: seq<seq<int>>, syms: seq<int>, sels: seq<Byte>, alphaSize: nat, k: nat) {
    && k <= |syms| && Groups(k) <= |sels|
    && (forall t :: 0 <= t < |rfreq| ==> rfreq[t] == TallyRow(syms, sels, t, alphaSize, k))
  }

  lemma FreqsMore(rfreq: seq<seq<int>>, syms: seq<int>, sels: seq<Byte>, s: Byte, alphaSize: nat, k: nat)
    requires FreqsAre(rfreq, syms, sels, alphaSize, k)
    ensures FreqsAre(rfreq, syms, sels + [s], alphaSize, k)
  {
    forall t | 0 <= t < |rfreq| ensures rfreq[t] == TallyRow(syms, sels + [s], t, alphaSize, k) {
      forall v | 0 <= v < alphaSize ensures Tally(syms, sels + [s], t, v, k) == Tally(syms, sels, t, v, k) {
        TallyMore(syms, sels, s, t, v, k);
      }
    }
  }

  lemma FreqsNext(rfreq: seq<seq<int>>, syms: seq<int>, sels: seq<Byte>, alphaSize: nat, k: nat)
    requires FreqsAre(rfreq, syms, sels, alphaSize, k) && k < |syms| && Groups(k + 1) <= |sels|
             && InRange(syms, alphaSize)
    requires sels[k / GROUP] < |rfreq|
    ensures var bt, v := sels[k / GROUP], syms[k];
            |rfreq[bt]| == alphaSize && FreqsAre(rfreq[bt := rfreq[bt][v := rfreq[bt][v] + 1]], syms, sels, alphaSize,
                                                 k + 1)
  {
    GroupInRange(k + 1, k);
    var bt, v := sels[k / GROUP], syms[k];
    var r := rfreq[bt := rfreq[bt][v := rfreq[bt][v] + 1]];
    forall t | 0 <= t < |r| ensures r[t] == TallyRow(syms, sels, t, alphaSize, k + 1) { }
  }

  // ---- one iteration ----

  lemma GroupBounds(n: nat, g: nat)
    requires GROUP * g < n
    ensures g < Groups(n) && Groups(GroupEnd(n, g)) == g + 1
    ensures GroupEnd(n, g) < n ==> GroupEnd(n, g) == GROUP * (g + 1)
  {
  }

  lemma WithinGroup(n: nat, g: nat, k: nat)
    requires GROUP * g <= k < GroupEnd(n, g)
    ensures k / GROUP == g && Groups(k + 1) == g + 1
  {
  }

  /** Groups pick their tables and the tables count their symbols. */
  method PickTables(lens: seq<seq<int>>, syms: seq<int>, nGroups: nat, alphaSize: nat)
    returns (sels: seq<Byte>, rfreq: seq<seq<int>>)
    requires 2 <= nGroups <= 6 && Rows(lens, nGroups, alphaSize, MAX_LEN) && InRange(syms, alphaSize) && 0 < |syms|
    ensures |sels| == Groups(|syms|) && (forall g :: 0 <= g < |sels| ==> sels[g] < nGroups)
            && BestChosen(lens, syms, sels, alphaSize)
    ensures |rfreq| == nGroups && FreqsAre(rfreq, syms, sels, alphaSize, |syms|)
  {
    hide Cost, Tally, Cheapest, CostsAre, Groups, TwoHalves;
    var p01, p23, p45 := [], [], [];
    if nGroups == 6 {
      p01 := PackTable(lens[0], lens[1]);
      p23 := PackTable(lens[2], lens[3]);
      p45 := PackTable(lens[4], lens[5]);
    }
    sels := [];
    rfreq := seq(nGroups, _ => seq(alphaSize, _ => 0));
    FreqsStart(nGroups, syms, alphaSize);
    GroupBounds(|syms|, 0);
    var gs := 0;
    while gs < |syms|
      invariant gs == if |sels| == Groups(|syms|) then |syms| else GROUP * |sels|
      invariant |sels| <= Groups(|syms|) && gs <= |syms|
      invariant (forall g :: 0 <= g < |sels| ==> sels[g] < nGroups) && BestChosen(lens, syms, sels, alphaSize)
      invariant |rfreq| == nGroups && FreqsAre(rfreq, syms, sels, alphaSize, gs)
      decreases |syms| - gs
    {
      ghost var g := |sels|;
      GroupBounds(|syms|, g);
      LastGroup(|syms|, g);
      var ge := gs + GROUP - 1;
      if ge >= |syms| { ge := |syms| - 1; }
      var cost;
      if nGroups == 6 && GROUP == ge - gs + 1 {
        cost := FastCosts(lens, p01, p23, p45, syms, gs, alphaSize);
      } else {
        cost := SlowCosts(lens, syms, gs, ge, alphaSize);
      }
      CostsSmall(cost, lens, syms, gs, ge + 1, alphaSize);
      var bt := PickCheapest(cost);
      CheapestRange(cost, bt);
      assert Cheapest(cost, bt) && CostsAre(cost, lens, syms, GROUP * g, GroupEnd(|syms|, g), alphaSize);
      FreqsMore(rfreq, syms, sels, bt, alphaSize, gs);
      BestMore(lens, syms, sels, alphaSize, bt, cost);
      sels := sels + [bt];
      rfreq := CountGroup(rfreq, syms, sels, bt, gs, ge, alphaSize, g);
      gs := ge + 1;
    }
  }

  lemma FreqsStart(n: nat, syms: seq<int>, alphaSize: nat)
    ensures Groups(0) == 0 && FreqsAre(seq(n, _ => seq(alphaSize, _ => 0)), syms, [], alphaSize, 0)
  {
    forall t | 0 <= t < n ensures seq(alphaSize, _ => 0) == TallyRow(syms, [], t, alphaSize, 0) { }
  }

  lemma LastGroup(n: nat, g: nat)
    requires g < Groups(n)
    ensures GROUP * g < n && (GroupEnd(n, g) == n <==> g + 1 == Groups(n))
  {
  }

  lemma CostsSmall(cost: seq<int>, lens: seq<seq<int>>, syms: seq<int>, lo: int, hi: int, alphaSize: nat)
    requires CostsAre(cost, lens, syms, lo, hi, alphaSize) && Rows(lens, |lens|, alphaSize, MAX_LEN) && hi - lo <= GROUP
    ensures |cost| == |lens| && forall t :: 0 <= t < |cost| ==> cost[t] < 999999999
  {
    forall t | 0 <= t < |cost| ensures cost[t] < 999999999 { CostBound(lens[t], syms, lo, hi); }
  }

  lemma CheapestRange(cost: seq<int>, bt: int)
    requires Cheapest(cost, bt)
    ensures 0 <= bt < |cost|
  {
  }

  lemma BestMore(lens: seq<seq<int>>, syms: seq<int>, sels: seq<Byte>, alphaSize: nat, bt: Byte, cost: seq<int>)
    requires BestChosen(lens, syms, sels, alphaSize) && |sels| < Groups(|syms|)
    requires Cheapest(cost, bt) && CostsAre(cost, lens, syms, GROUP * |sels|, GroupEnd(|syms|, |sels|), alphaSize)
    ensures BestChosen(lens, syms, sels + [bt], alphaSize)
  {
    hide Cheapest, CostsAre;
    assert BestFor(lens, syms, bt, |sels|, alphaSize);
    hide BestFor;
    var s := sels + [bt];
    forall g | 0 <= g < |s| ensures BestFor(lens, syms, s[g], g, alphaSize) {
      if g < |sels| { assert s[g] == sels[g]; }
    }
  }

  method CountGroup(rfreq0: seq<seq<int>>, syms: seq<int>, sels: seq<Byte>, bt: Byte, gs: int, ge: int,
      ghost alphaSize: nat, ghost g: nat) returns (rfreq: seq<seq<int>>)
    requires InRange(syms, alphaSize) && |sels| == g + 1 && sels[g] == bt < |rfreq0| && gs == GROUP * g
             && ge + 1 == GroupEnd(|syms|, g) && gs <= ge < |syms|
    requires FreqsAre(rfreq0, syms, sels, alphaSize, gs)
    ensures |rfreq| == |rfreq0| && FreqsAre(rfreq, syms, sels, alphaSize, ge + 1)
  {
    hide FreqsAre, Groups;
    rfreq := rfreq0;
    for i := gs to ge + 1
      invariant |rfreq| == |rfreq0| && FreqsAre(rfreq, syms, sels, alphaSize, i)
    {
      WithinGroup(|syms|, g, i);
      FreqsNext(rfreq, syms, sels, alphaSize, i);
      rfreq := rfreq[bt := rfreq[bt][syms[i] := rfreq[bt][syms[i]] + 1]];
    }
  }

  /** Tables remade from the symbols that were given to them. */
  method RemakeTables(rfreq: seq<seq<int>>, alphaSize: nat, ghost syms: seq<int>, ghost sels: seq<Byte>)
    returns (lens: seq<seq<int>>)
    requires 2 <= alphaSize <= 258 && |syms| <= 900001 && InRange(syms, alphaSize)
             && FreqsAre(rfreq, syms, sels, alphaSize, |syms|)
    ensures |lens| == |rfreq| && Rows(lens, |lens|, alphaSize, MAX_LEN) && forall t :: 0 <= t < |lens| ==>
              Complete(lens[t], alphaSize) && Made(rfreq[t], lens[t])
  {
    hide Tally, KraftSum, Pow2, Total, LastRound;
    lens := [];
    for t := 0 to |rfreq|
      invariant |lens| == t && Rows(lens, t, alphaSize, MAX_LEN) && forall u :: 0 <= u < t ==>
                  Complete(lens[u], alphaSize) && Made(rfreq[u], lens[u])
    {
      var len := new Byte[alphaSize];
      TallySum(syms, sels, t, alphaSize, |syms|);
      TotalBound(rfreq[t]);
      assert rfreq[t][..alphaSize] == rfreq[t];
      MakeCodeLengths(len, rfreq[t], alphaSize, MAX_LEN);
      assert len[..alphaSize] == len[..];
      ghost var lens0 := lens;
      lens := lens + [len[..]];
      assert forall u :: 0 <= u < t ==> lens[u] == lens0[u];
    }
  }

  /** Code lengths made for these frequencies. */
  ghost predicate Made(freq: seq<int>, lens: seq<int>) {
    exists r: nat :: LastRound(freq, lens, MAX_LEN, r)
  }

  /** One round: every group picks the best of the tables there are, and each table is remade for what picked it. */
  ghost predicate Round(syms: seq<int>, alphaSize: nat, before: seq<seq<int>>, sels: seq<Byte>, lens: seq<seq<int>>) {
    && |sels| == Groups(|syms|) && BestChosen(before, syms, sels, alphaSize) && |lens| == |before|
    && (forall t :: 0 <= t < |lens| ==> Made(TallyRow(syms, sels, t, alphaSize, |syms|), lens[t]))
  }

  /** One round after another: the tables before and after each, and what was picked in it. */
  ghost predicate Rounds(syms: seq<int>, alphaSize: nat, tables: seq<seq<seq<int>>>, picks: seq<seq<Byte>>) {
    |tables| == |picks| + 1
    && forall i :: 0 <= i < |picks| ==> Round(syms, alphaSize, tables[i], picks[i], tables[i + 1])
  }

  lemma RoundsMore(syms: seq<int>, alphaSize: nat, tables: seq<seq<seq<int>>>, picks: seq<seq<Byte>>, sels: seq<Byte>,
      lens: seq<seq<int>>)
    requires Rounds(syms, alphaSize, tables, picks) && Round(syms, alphaSize, tables[|picks|], sels, lens)
    ensures Rounds(syms, alphaSize, tables + [lens], picks + [sels])
  {
    hide Round;
  }

  lemma RoundOf(syms: seq<int>, alphaSize: nat, before: seq<seq<int>>, sels: seq<Byte>, rfreq: seq<seq<int>>,
      lens: seq<seq<int>>)
    requires |sels| == Groups(|syms|) && BestChosen(before, syms, sels, alphaSize)
             && FreqsAre(rfreq, syms, sels, alphaSize, |syms|)
    requires |lens| == |rfreq| == |before| && forall t :: 0 <= t < |lens| ==> Made(rfreq[t], lens[t])
    ensures Round(syms, alphaSize, before, sels, lens)
  {
    hide Tally, BestChosen, Made, Groups;
  }

  /** Lengths 1 to 17 that fill the code space exactly. */
  ghost predicate Complete(lens: seq<int>, alphaSize: nat) {
    && |lens| == alphaSize && (forall v :: 0 <= v < alphaSize ==> 1 <= lens[v] <= MAX_LEN)
    && KraftSum(lens, MAX_LEN) == Pow2(MAX_LEN)
  }

  lemma CompleteUsable(lens: seq<int>, alphaSize: nat)
    requires Complete(lens, alphaSize) && 0 < alphaSize <= 258
    ensures Usable(lens, alphaSize)
  {
    hide KraftSum, Pow2;
    KraftScale(lens, MAX_LEN, LONGEST - MAX_LEN);
    Pow2Add(MAX_LEN, LONGEST - MAX_LEN);
  }

  // ---- the first tables ----

  ghost function SumFrom(f: seq<int>, lo: int, hi: int): int
    requires 0 <= lo <= hi <= |f|
    decreases hi - lo
  {
    if lo == hi then 0 else SumFrom(f, lo, hi - 1) + f[hi - 1]
  }

  lemma {:induction false} SumSplit(f: seq<int>, lo: int, mid: int, hi: int)
    requires 0 <= lo <= mid <= hi <= |f| && forall v :: 0 <= v < |f| ==> f[v] >= 0
    ensures SumFrom(f, lo, hi) == SumFrom(f, lo, mid) + SumFrom(f, mid, hi) && SumFrom(f, mid, hi) >= 0
    decreases hi - mid
  {
    if mid < hi { SumSplit(f, lo, mid, hi - 1); }
  }

  function HowMany(nMTF: nat): (n: nat)
    ensures 2 <= n <= 6
  {
    if nMTF < 200 then 2 else if nMTF < 600 then 3 else if nMTF < 1200 then 4 else if nMTF < 2400 then 5 else 6
  }

  /** The first position from n on before which the symbols from gs on make up t, or the end. */
  ghost function Reach(f: seq<int>, gs: int, n: int, top: int, t: int): (e: int)
    requires 0 <= gs <= n <= top <= |f|
    ensures n <= e <= top && (e < top ==> SumFrom(f, gs, e) >= t)
    ensures forall m :: n <= m < e ==> SumFrom(f, gs, m) < t
    decreases top - n
  {
    if SumFrom(f, gs, n) >= t || n == top then n else Reach(f, gs, n + 1, top, t)
  }

  /** Where the run of a table ends that begins at gs, with nPart tables left to give symbols to: at an equal share of
      what is left; every other table in between goes one symbol back. */
  ghost function RunEnd(f: seq<int>, top: int, gs: int, nPart: nat, nGroups: nat): (e: int)
    requires 0 <= gs <= top <= |f| && 0 < nPart <= nGroups
    ensures gs <= e <= top
  {
    var e := Reach(f, gs, gs, top, SumFrom(f, gs, top) / nPart);
    if e > gs + 1 && nPart != nGroups && nPart != 1 && (nGroups - nPart) % 2 == 1 then e - 1 else e
  }

  /** The runs' ends, one after another; the first runs go to the last tables. */
  ghost predicate Shares(f: seq<int>, top: int, nGroups: nat, ends: seq<int>, n: nat) {
    && |ends| == n + 1 && n <= nGroups && 0 <= top <= |f| && ends[0] == 0
    && (forall j :: 0 <= j < |ends| ==> 0 <= ends[j] <= top)
    && (forall j :: 0 <= j < n ==> ends[j + 1] == RunEnd(f, top, ends[j], nGroups - j, nGroups))
  }

  /** A table that is cheap for its run and dear for all other symbols. */
  ghost predicate CheapFor(row: seq<int>, from: int, to: int) {
    forall v :: 0 <= v < |row| ==> row[v] == if from <= v < to then LESSER_ICOST else GREATER_ICOST
  }

  ghost predicate FirstOnes(lens: seq<seq<int>>, f: seq<int>, alphaSize: nat, nGroups: nat) {
    exists ends :: Shares(f, alphaSize, nGroups, ends, nGroups) && Rows(lens, nGroups, alphaSize, GREATER_ICOST)
                   && forall j :: 0 <= j < nGroups ==> CheapFor(lens[nGroups - 1 - j], ends[j], ends[j + 1])
  }

  lemma ReachStep(f: seq<int>, gs: int, n: int, top: int, t: int)
    requires 0 <= gs <= n <= top <= |f|
    ensures if SumFrom(f, gs, n) < t && n < top then Reach(f, gs, n, top, t) == Reach(f, gs, n + 1, top, t)
            else Reach(f, gs, n, top, t) == n
  {
  }

  lemma SharesMore(f: seq<int>, top: int, nGroups: nat, ends: seq<int>, n: nat)
    requires Shares(f, top, nGroups, ends, n) && n < nGroups
    ensures Shares(f, top, nGroups, ends + [RunEnd(f, top, ends[n], nGroups - n, nGroups)], n + 1)
  {
    hide RunEnd;
  }

  lemma {:induction false} RunsOrdered(f: seq<int>, top: int, nGroups: nat, ends: seq<int>, i: nat, j: nat)
    requires Shares(f, top, nGroups, ends, nGroups) && i <= j <= nGroups
    ensures ends[i] <= ends[j]
    decreases j
  {
    hide Reach;
    if i < j {
      RunsOrdered(f, top, nGroups, ends, i, j - 1);
      assert ends[j - 1 + 1] == RunEnd(f, top, ends[j - 1], nGroups - (j - 1), nGroups);
    }
  }

  lemma {:induction false} NoneLeft(f: seq<int>, lo: int, hi: int, v: int)
    requires 0 <= lo <= v < hi <= |f| && SumFrom(f, lo, hi) <= 0 && forall u :: 0 <= u < |f| ==> f[u] >= 0
    ensures f[v] == 0
    decreases hi - lo
  {
    SumSplit(f, lo, lo, hi - 1);
    if v < hi - 1 { NoneLeft(f, lo, hi - 1, v); }
  }

  /** Every symbol that occurs starts out cheap in exactly one table. */
  lemma EachInOneRun(lens: seq<seq<int>>, f: seq<int>, alphaSize: nat, nGroups: nat, v: int)
    requires FirstOnes(lens, f, alphaSize, nGroups) && nGroups > 0 && 0 <= v < alphaSize <= |f| && f[v] > 0
    requires forall u :: 0 <= u < |f| ==> f[u] >= 0
    ensures |lens| == nGroups && forall t :: 0 <= t < nGroups ==> |lens[t]| == alphaSize
    ensures exists t :: 0 <= t < nGroups && lens[t][v] == LESSER_ICOST
                        && forall u :: 0 <= u < nGroups && u != t ==> lens[u][v] == GREATER_ICOST
  {
    var ends :| Shares(f, alphaSize, nGroups, ends, nGroups) && Rows(lens, nGroups, alphaSize, GREATER_ICOST)
                && forall j :: 0 <= j < nGroups ==> CheapFor(lens[nGroups - 1 - j], ends[j], ends[j + 1]);
    LastRun(f, alphaSize, nGroups, ends, v);
    var j: nat := 0;
    while v >= ends[j + 1]
      invariant j < nGroups && ends[j] <= v
      decreases nGroups - j
    {
      j := j + 1;
    }
    var t := nGroups - 1 - j;
    assert CheapFor(lens[nGroups - 1 - j], ends[j], ends[j + 1]);
    forall u | 0 <= u < nGroups && u != t ensures lens[u][v] == GREATER_ICOST {
      var i := nGroups - 1 - u;
      assert CheapFor(lens[nGroups - 1 - i], ends[i], ends[i + 1]);
      if i < j { RunsOrdered(f, alphaSize, nGroups, ends, i + 1, j); } else {
        RunsOrdered(f, alphaSize, nGroups, ends, j + 1, i);
      }
    }
  }

  /** The last run takes in all that is left. */
  lemma LastRun(f: seq<int>, top: int, nGroups: nat, ends: seq<int>, v: int)
    requires Shares(f, top, nGroups, ends, nGroups) && nGroups > 0 && 0 <= v < top && f[v] > 0
    requires forall u :: 0 <= u < |f| ==> f[u] >= 0
    ensures v < ends[nGroups]
  {
    var k := nGroups - 1;
    assert ends[k + 1] == RunEnd(f, top, ends[k], nGroups - k, nGroups);
    var e := ends[nGroups];
    if v >= e {
      SumSplit(f, ends[k], e, top);
      NoneLeft(f, e, top, v);
    }
  }

  /** The run of one table: its last symbol, and how often its symbols occur. */
  method FindRun(mtfFreq: seq<int>, alphaSize: nat, gs: int, remF: int, nPart: nat, nGroups: nat)
    returns (ge: int, aFreq: int)
    requires 0 <= gs <= alphaSize <= |mtfFreq| && 0 < nPart <= nGroups && remF == SumFrom(mtfFreq, gs, alphaSize)
    ensures ge + 1 == RunEnd(mtfFreq, alphaSize, gs, nPart, nGroups) && aFreq == SumFrom(mtfFreq, gs, ge + 1)
  {
    hide Reach;
    var tFreq := remF / nPart;
    ge := gs - 1;
    aFreq := 0;
    while aFreq < tFreq && ge < alphaSize - 1
      invariant gs - 1 <= ge <= alphaSize - 1 && aFreq == SumFrom(mtfFreq, gs, ge + 1)
      invariant Reach(mtfFreq, gs, gs, alphaSize, tFreq) == Reach(mtfFreq, gs, ge + 1, alphaSize, tFreq)
      decreases alphaSize - ge
    {
      ReachStep(mtfFreq, gs, ge + 1, alphaSize, tFreq);
      ge := ge + 1;
      aFreq := aFreq + mtfFreq[ge];
    }
    ReachStep(mtfFreq, gs, ge + 1, alphaSize, tFreq);
    if ge > gs && nPart != nGroups && nPart != 1 && (nGroups - nPart) % 2 == 1 {
      aFreq := aFreq - mtfFreq[ge];
      ge := ge - 1;
    }
  }

  /** Each table starts out cheap for a run of symbols with about an equal share of the block. */
  method FirstTables(mtfFreq: seq<int>, nMTF: nat, alphaSize: nat, nGroups: nat) returns (lens: seq<seq<int>>)
    requires 2 <= nGroups <= 6 && alphaSize <= |mtfFreq| && (forall v :: 0 <= v < |mtfFreq| ==> mtfFreq[v] >= 0)
    requires SumFrom(mtfFreq, 0, alphaSize) == nMTF
    ensures Rows(lens, nGroups, alphaSize, GREATER_ICOST) && FirstOnes(lens, mtfFreq, alphaSize, nGroups)
  {
    hide RunEnd, SumFrom;
    lens := seq(nGroups, _ => seq(alphaSize, _ => GREATER_ICOST));
    var nPart, remF, gs := nGroups, nMTF, 0;
    ghost var ends := [0];
    while nPart > 0
      invariant 0 <= nPart <= nGroups && 0 <= gs <= alphaSize && remF == SumFrom(mtfFreq, gs, alphaSize)
      invariant Rows(lens, nGroups, alphaSize, GREATER_ICOST)
      invariant Shares(mtfFreq, alphaSize, nGroups, ends, nGroups - nPart) && gs == ends[nGroups - nPart]
      invariant forall j :: 0 <= j < nGroups - nPart ==> CheapFor(lens[nGroups - 1 - j], ends[j], ends[j + 1])
    {
      var ge, aFreq := FindRun(mtfFreq, alphaSize, gs, remF, nPart, nGroups);
      SharesMore(mtfFreq, alphaSize, nGroups, ends, nGroups - nPart);
      SumSplit(mtfFreq, gs, ge + 1, alphaSize);
      var row := seq(alphaSize, v => if v >= gs && v <= ge then LESSER_ICOST else GREATER_ICOST);
      assert CheapFor(row, gs, ge + 1);
      lens := lens[nPart - 1 := row];
      ends := ends + [ge + 1];
      nPart := nPart - 1;
      gs := ge + 1;
      remF := remF - aFreq;
    }
  }

  /** The whole choice: two to six complete tables, after four rounds from tables that share out the symbols; so every
      group of symbols has the table that was cheapest for it before the last remake. */
  method ChooseTables(syms: seq<int>, mtfFreq: seq<int>, alphaSize: nat)
    returns (nGroups: nat, selectors: seq<Byte>, lens: seq<seq<int>>)
    requires 3 <= alphaSize <= 258 && 0 < |syms| <= 900001 && InRange(syms, alphaSize)
    requires alphaSize <= |mtfFreq| && (forall v :: 0 <= v < |mtfFreq| ==> mtfFreq[v] >= 0)
             && SumFrom(mtfFreq, 0, alphaSize) == |syms|
    ensures nGroups == HowMany(|syms|) && |lens| == nGroups
            && (forall t :: 0 <= t < nGroups ==> Complete(lens[t], alphaSize))
    ensures |selectors| == Groups(|syms|) <= 18002 && forall g :: 0 <= g < |selectors| ==> selectors[g] < nGroups
    ensures exists tables, picks ::
              && Rounds(syms, alphaSize, tables, picks) && |picks| == N_ITERS
              && FirstOnes(tables[0], mtfFreq, alphaSize, nGroups)
              && selectors == picks[N_ITERS - 1] && lens == tables[N_ITERS]
  {
    hide Complete, FreqsAre, Tally, BestChosen, Made, Round, FirstOnes;
    nGroups, selectors := HowMany(|syms|), [];
    lens := FirstTables(mtfFreq, |syms|, alphaSize, nGroups);
    RowsHigher(lens, nGroups, alphaSize);
    var iter := 0;
    ghost var tables, picks := [lens], [];
    while iter < N_ITERS
      invariant 0 <= iter <= N_ITERS && Rows(lens, nGroups, alphaSize, MAX_LEN)
      invariant iter > 0 ==> (forall t :: 0 <= t < nGroups ==> Complete(lens[t], alphaSize))
      invariant iter > 0 ==>
                  |selectors| == Groups(|syms|) && (forall g :: 0 <= g < |selectors| ==> selectors[g] < nGroups)
      invariant Rounds(syms, alphaSize, tables, picks) && |picks| == iter && lens == tables[iter]
      invariant FirstOnes(tables[0], mtfFreq, alphaSize, nGroups) && (iter > 0 ==> selectors == picks[iter - 1])
    {
      ghost var before := lens;
      var rfreq;
      selectors, rfreq := PickTables(lens, syms, nGroups, alphaSize);
      lens := RemakeTables(rfreq, alphaSize, syms, selectors);
      RoundOf(syms, alphaSize, before, selectors, rfreq, lens);
      RoundsMore(syms, alphaSize, tables, picks, selectors, lens);
      tables, picks := tables + [lens], picks + [selectors];
      iter := iter + 1;
    }
    assert |selectors| <= 2 + 900000 / GROUP;  // error 3003 cannot happen
  }

  lemma RowsHigher(lens: seq<seq<int>>, n: nat, alphaSize: nat)
    requires Rows(lens, n, alphaSize, GREATER_ICOST)
    ensures Rows(lens, n, alphaSize, MAX_LEN)
  {
    forall t, v | 0 <= t < n && 0 <= v < alphaSize ensures 0 <= lens[t][v] <= MAX_LEN { }
  }
}
