/** What the walk along a hash chain finds, said of the data: the window and its positions drop out. */
module DeflateSearch {
  import opened Bits
  import opened LzTokens
  import opened RollingHash
  import opened HashChains
  import opened DeflateWindow
  import opened DeflateMatch
  import opened DeflateChoice

  /** The strings between base and n that the strategy is to know have been inserted, unless the input ended in them. */
  ghost predicate Recalls(ins: set<nat>, base: int, n: int, strategy: Strategy, m: Marks, ts: seq<Token>) {
    forall t: nat :: base < t < n && !Cut(m, t, MIN_MATCH) && (strategy == Fast ==> t in Starts(ts)) ==> t - base in ins
  }

  /** Where in the data the window begins. */
  ghost function Base(s: DeflateState): int
    reads s`input, s`lookahead, s`strstart
  {
    |s.input| - s.lookahead - s.strstart
  }

  /** Until the window has moved, it begins where the history does. */
  ghost predicate Begun(s: DeflateState, m: Marks)
    reads s`input, s`lookahead, s`strstart
  {
    s.strstart < s.MaxDist() ==> Base(s) in m.begins
  }

  lemma DataAt(s: DeflateState, v: nat)
    requires s.Data() && v < s.strstart + s.lookahead
    ensures 0 <= Base(s) && v < s.window.Length && Base(s) + v < |s.input| && s.window[v] == s.input[Base(s) + v]
  {
    var n := s.strstart + s.lookahead;
    assert s.window[..][..n][v] == s.input[|s.input| - n..][v];
  }

  lemma KeyIn(s: DeflateState, h: Hashing, v: nat)
    requires s.Data() && v + 2 < s.strstart + s.lookahead
    ensures 0 <= Base(s) && v + 2 < s.window.Length && Base(s) + v + 2 < |s.input|
    ensures KeyAt(h, s.window[..], v) == KeyAt(h, s.input, Base(s) + v)
  {
    DataAt(s, v);
    DataAt(s, v + 1);
    DataAt(s, v + 2);
  }

  /** Bytes that agree in the data agree in the window. */
  lemma SameInWindow(s: DeflateState, v: nat, k: nat)
    requires s.Data() && v < s.strstart && k <= s.lookahead && Repeats(s.input, Base(s) + s.strstart, s.strstart - v, k)
    ensures SameRun(s.window[..], v, s.strstart, k)
  {
    if s.lookahead + s.strstart > 0 { DataAt(s, 0); }
    forall j | s.strstart <= j < s.strstart + k ensures s.window[j] == s.window[j - (s.strstart - v)] {
      DataAt(s, j);
      DataAt(s, j - (s.strstart - v));
    }
    assert s.strstart + k <= s.window.Length;
  }

  lemma SameThree(s: DeflateState, h: Hashing, v: nat, k: nat)
    requires SameRun(s.window[..], v, s.strstart, k) && k >= 3
    ensures v + 2 < s.window.Length && s.strstart + 2 < s.window.Length
    ensures KeyAt(h, s.window[..], v) == KeyAt(h, s.window[..], s.strstart)
  {
    var w := s.window[..];
    assert w[s.strstart] == w[v] && w[s.strstart + 1] == w[v + 1] && w[s.strstart + 2] == w[v + 2];
  }

  /** All later than t, latest first, inserted under one key. */
  ghost predicate Passes(h: Hashing, w: seq<Byte>, ins: set<nat>, c: seq<nat>, t: nat, v: nat)
    requires v + 2 < |w|
  {
    && (forall i :: 0 <= i < |c| ==>
          t < c[i] <= v && c[i] in ins && c[i] + 2 < |w| && KeyAt(h, w, c[i]) == KeyAt(h, w, v))
    && (forall i, j :: 0 <= i < j < |c| ==> c[i] > c[j])
  }

  lemma PassesMore(h: Hashing, w: seq<Byte>, ins: set<nat>, c: seq<nat>, t: nat, u: nat, v: nat)
    requires t < u < v && u + 2 < |w| && v + 2 < |w| && v in ins && KeyAt(h, w, u) == KeyAt(h, w, v)
    requires Passes(h, w, ins, c, t, u)
    ensures Passes(h, w, ins, [v] + c, t, v)
  {
    hide Three;
    var c' := [v] + c;
    forall i | 0 <= i < |c'|
      ensures t < c'[i] <= v && c'[i] in ins && c'[i] + 2 < |w| && KeyAt(h, w, c'[i]) == KeyAt(h, w, v)
    {
      if i > 0 { assert c'[i] == c[i - 1]; }
    }
    forall i, j | 0 <= i < j < |c'| ensures c'[i] > c'[j] {
      assert c'[j] == c[j - 1];
      if i > 0 { assert c'[i] == c[i - 1]; }
    }
  }

  /** A chain that does not come as far as t is full of later strings. */
  lemma {:induction false} ChainPasses(h: Hashing, wsize: nat, w: seq<Byte>, head: seq<nat>, prev: seq<nat>,
      ins: set<nat>, cur: nat, lim: nat, top: nat, v: nat, limit: nat, n: nat, t: nat)
    requires Chained(h, wsize, w, head, prev, ins, cur, lim, top) && v in ins && cur < limit + wsize && limit < t <= v
    requires t in ins && t + 2 < |w| && v + 2 < |w| && KeyAt(h, w, t) == KeyAt(h, w, v)
    requires t !in Chain(prev, wsize, v, limit, n)
    ensures |Chain(prev, wsize, v, limit, n)| == n && Passes(h, w, ins, Chain(prev, wsize, v, limit, n), t, v)
    decreases n
  {
    hide Chained, Three, Passes;
    if n > 0 {
      ChainSizes(h, wsize, w, head, prev, ins, cur, lim, top);
      FollowLink(h, wsize, w, head, prev, ins, cur, lim, top, v);
      var u := prev[Slot(wsize, v)];
      assert t < v ==> t <= u;
      var c := Chain(prev, wsize, u, limit, n - 1);
      assert Chain(prev, wsize, v, limit, n) == [v] + c;
      assert t != v;
      if n > 1 {
        assert c[0] == u;
        ChainPasses(h, wsize, w, head, prev, ins, cur, lim, top, u, limit, n - 1, t);
        PassesMore(h, w, ins, c, t, u, v);
      } else {
        assert [v] + c == [v];
        PassesOne(h, w, ins, t, v);
      }
    } else {
      PassesNone(h, w, ins, t, v);
    }
  }

  lemma PassesOne(h: Hashing, w: seq<Byte>, ins: set<nat>, t: nat, v: nat)
    requires t < v && v in ins && v + 2 < |w|
    ensures Passes(h, w, ins, [v], t, v)
  {
  }

  lemma PassesNone(h: Hashing, w: seq<Byte>, ins: set<nat>, t: nat, v: nat)
    requires v + 2 < |w|
    ensures Passes(h, w, ins, [], t, v)
  {
  }

  /** Passed in the window, crowded out in the data. */
  lemma PassesAreRivals(s: DeflateState, c: seq<nat>, t: nat, v: nat, total: seq<Byte>)
    requires s.Data() && s.strstart + 2 < s.strstart + s.lookahead && v < s.strstart && s.input <= total
             && s.strstart + 2 < s.window.Length
    requires forall u :: u in s.inserted ==> u + 2 < s.strstart + s.lookahead
    requires KeyAt(s.cfg.hashing, s.window[..], v) == KeyAt(s.cfg.hashing, s.window[..], s.strstart)
    requires Passes(s.cfg.hashing, s.window[..], s.inserted, c, t, v) && Base(s) >= 0
    ensures Crowded(s.cfg.hashing, total, Base(s) + t, Base(s) + s.strstart, |c|)
  {
    hide Three;
    var h, b, w, n := s.cfg.hashing, Base(s), s.window[..], Base(s) + s.strstart;
    var d := seq(|c|, i requires 0 <= i < |c| => b + c[i]);
    KeyIn(s, h, s.strstart);
    KeyLonger(h, s.input, total, n);
    forall i | 0 <= i < |d| ensures b + t < d[i] < n && KeyAt(h, total, d[i]) == KeyAt(h, total, n) {
      assert c[i] in s.inserted && KeyAt(h, w, c[i]) == KeyAt(h, w, v);
      KeyIn(s, h, c[i]);
      KeyLonger(h, s.input, total, b + c[i]);
    }
    assert Rivals(h, total, d, b + t, n);
  }

  lemma KeyLonger(h: Hashing, data: seq<Byte>, data': seq<Byte>, v: nat)
    requires v + 2 < |data| && data <= data'
    ensures KeyAt(h, data, v) == KeyAt(h, data', v)
  {
  }

  /** What a search starts from: the head of the chain before the string at strstart joined it. */
  ghost predicate Asked(s: DeflateState, hashHead: nat)
    reads s`strstart, s`lookahead, s`input, s`inserted, s.window, s.prev, s.head
  {
    && s.Shape() && s.Data() && s.Chains(s.strstart, s.strstart + 1, s.strstart + s.lookahead)
    && s.lookahead >= MIN_MATCH && s.strstart <= s.window.Length - MIN_LOOKAHEAD && s.strstart + 2 < s.window.Length
    && NoneBetween(s.cfg.hashing, s.window[..], s.inserted, hashHead, s.strstart,
                   KeyAt(s.cfg.hashing, s.window[..], s.strstart))
  }

  /** A match on offer is in the window, under the right key, and not before the chain's head. */
  lemma OfferedHere(s: DeflateState, strategy: Strategy, m: Marks, total: seq<Byte>, ts: seq<Token>, hashHead: nat,
      t: nat, k: nat)
    requires Asked(s, hashHead) && Begun(s, m)
             && Recalls(s.inserted, Base(s), Base(s) + s.strstart, strategy, m, ts)
    requires s.input <= total && (s.lookahead < MAX_MATCH ==> s.input == total) && Base(s) >= 0
    requires Offered(strategy, s.cfg, m, ts, t, Base(s) + s.strstart) && MIN_MATCH <= k <= MAX_MATCH
             && Repeats(total, Base(s) + s.strstart, Base(s) + s.strstart - t, k)
    ensures Base(s) < t < Base(s) + s.strstart && t - Base(s) in s.inserted && LimitOf(s) < t - Base(s) <= hashHead
    ensures k <= s.lookahead && SameRun(s.window[..], t - Base(s), s.strstart, k)
    ensures KeyAt(s.cfg.hashing, s.window[..], t - Base(s)) == KeyAt(s.cfg.hashing, s.window[..], s.strstart)
  {
    hide Three, Chained, Cut, Starts, SameRun, Pow2, Proper;
    var b, n := Base(s), Base(s) + s.strstart;
    DataAt(s, 0);
    assert s.strstart < s.MaxDist() ==> b in m.begins;
    var v: nat := t - b;
    assert v in s.inserted;
    assert Repeats(s.input, n, s.strstart - v, k);
    SameInWindow(s, v, k);
    SameThree(s, s.cfg.hashing, v, k);
  }

  /** The chain that begins at this head is to be followed. */
  ghost predicate Near(s: DeflateState, hashHead: nat)
    reads s`strstart
  {
    hashHead != 0 && s.strstart - hashHead <= s.MaxDist()
  }

  /** The chain, if any, has been searched: no match on offer is longer than the one found. */
  lemma SearchIs(s: DeflateState, strategy: Strategy, m: Marks, total: seq<Byte>, ts: seq<Token>, hashHead: nat,
      len: nat)
    requires Asked(s, hashHead) && Begun(s, m) && Recalls(s.inserted, Base(s), Base(s) + s.strstart, strategy, m, ts)
    requires s.input <= total && (s.lookahead < MAX_MATCH ==> s.input == total) && Base(s) >= 0
    requires Near(s, hashHead) ==> Candidate(s, hashHead) && Searched(s, hashHead, len)
                                   && (len < s.cfg.nice || len <= s.prevLength)
    ensures NoneBetter(strategy, s.cfg, m, total, ts, Base(s) + s.strstart, len, Follow(s.cfg, s.prevLength))
  {
    hide Three, Chained, Cut, Starts, SameRun, Pow2, Proper, Repeats, Begun, Recalls, KeyAt, Chain, Crowded;
    var n, c := Base(s) + s.strstart, Chain(s.prev[..], s.cfg.wsize, hashHead, LimitOf(s), ChainLength(s));
    forall t: nat, k: nat | Offered(strategy, s.cfg, m, ts, t, n) && MIN_MATCH <= k <= MAX_MATCH
                            && Repeats(total, n, n - t, k) && !Cut(m, n, k)
      ensures k <= len || Crowded(s.cfg.hashing, total, t, n, Follow(s.cfg, s.prevLength))
    {
      OfferedHere(s, strategy, m, total, ts, hashHead, t, k);
      var v: nat := t - Base(s);
      if v in c {
        var i :| 0 <= i < |c| && c[i] == v;
      } else {
        Missed(s, hashHead, v, total);
      }
    }
  }

  lemma Missed(s: DeflateState, hashHead: nat, v: nat, total: seq<Byte>)
    requires Asked(s, hashHead) && Candidate(s, hashHead) && s.input <= total && Base(s) >= 0
    requires v in s.inserted && LimitOf(s) < v <= hashHead && v + 2 < s.window.Length
             && KeyAt(s.cfg.hashing, s.window[..], v) == KeyAt(s.cfg.hashing, s.window[..], s.strstart)
    requires v !in Chain(s.prev[..], s.cfg.wsize, hashHead, LimitOf(s), ChainLength(s))
    ensures Crowded(s.cfg.hashing, total, Base(s) + v, Base(s) + s.strstart, Follow(s.cfg, s.prevLength))
  {
    hide Three, Pow2, Proper, KeyAt, Chain, Crowded, Links, Passes, NoneBetween, Under;
    var top := s.strstart + s.lookahead;
    assert hashHead + 2 < s.window.Length;
    ChainPasses(s.cfg.hashing, s.cfg.wsize, s.window[..], s.head[..], s.prev[..], s.inserted, s.strstart,
                s.strstart + 1, top, hashHead, LimitOf(s), ChainLength(s), v);
    PassesAreRivals(s, Chain(s.prev[..], s.cfg.wsize, hashHead, LimitOf(s), ChainLength(s)), v, hashHead, total);
  }
}
