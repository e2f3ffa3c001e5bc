/** The match finder: walks a hash chain and never compares the third byte, which the
    equal keys already decide. */
module DeflateMatch {
  import opened Bits
  import opened LzTokens
  import opened RollingHash
  import opened HashChains
  import opened DeflateWindow

  /** How far the strings at scan and m agree, eight bytes to a round, from byte 2 on. */
  method Extend(window: array<Byte>, scan: nat, m: nat) returns (len: nat)
    requires m < scan && scan + MAX_MATCH < window.Length && SameRun(window[..], m, scan, 3)
    ensures 3 <= len <= MAX_MATCH && SameRun(window[..], m, scan, len)
    ensures len == MAX_MATCH || window[scan + len] != window[m + len]
  {
    var i := 2;
    while true
      invariant 2 <= i < MAX_MATCH && i % 8 == 2 && forall j :: scan <= j <= scan + i ==>
                  window[j] == window[j - (scan - m)]
      decreases MAX_MATCH - i
    {
      ghost var i0 := i;
      var k := 0;
      while k < 8
        invariant 0 <= k <= 8 && i == i0 + k
        invariant forall j :: scan <= j <= scan + i ==> window[j] == window[j - (scan - m)]
      {
        i, k := i + 1, k + 1;
        if window[scan + i] != window[m + i] { return i; }
      }
      if i >= MAX_MATCH { break; }
    }
    len := i;
  }

  /** A candidate of the chain for the string at strstart, not too far back. */
  ghost predicate Candidate(s: DeflateState, v: nat)
    reads s`strstart, s`lookahead, s`inserted, s.window
    requires s.strstart + 2 < s.window.Length
  {
    && v in s.inserted && 0 < v < s.strstart && s.strstart - v <= s.MaxDist()
    && KeyAt(s.cfg.hashing, s.window[..], v) == KeyAt(s.cfg.hashing, s.window[..], s.strstart)
  }

  /** Equal keys and two equal bytes: three equal bytes. */
  lemma ThreeAgree(h: Hashing, w: seq<Byte>, v: nat, scan: nat)
    requires Proper(h) && v < scan && scan + 2 < |w| && KeyAt(h, w, v) == KeyAt(h, w, scan) && w[v] == w[scan]
             && w[v + 1] == w[scan + 1]
    ensures SameRun(w, v, scan, 3)
  {
    ThirdByte(h, w[v], w[v + 1], w[v + 2], w[scan + 2]);
    hide Three, Proper;
    forall j | scan <= j < scan + 3 ensures w[j] == w[j - (scan - v)] {
      assert j == scan || j == scan + 1 || j == scan + 2;
    }
  }

  /** The next link stays a candidate, as long as it is above the limit. */
  lemma NextCandidate(s: DeflateState, v: nat, limit: nat, top: nat)
    requires s.Shape() && s.Chains(s.strstart, s.strstart + 1, top) && s.strstart + 2 < top && Candidate(s, v)
    requires limit == if s.strstart > s.MaxDist() then s.strstart - s.MaxDist() else 0
    ensures v < 2 * s.cfg.wsize
    ensures var u := s.prev[Slot(s.cfg.wsize, v)]; u > limit ==> Candidate(s, u) && u < v
  {
    hide Chained, Three;
    FollowLink(s.cfg.hashing, s.cfg.wsize, s.window[..], s.head[..], s.prev[..], s.inserted, s.strstart, s.strstart + 1,
               top, v);
  }

  /** What a best match so far is worth. */
  ghost predicate Found(s: DeflateState, best: nat)
    reads s`strstart, s`matchStart, s.window
  {
    0 < s.matchStart < s.strstart && s.strstart - s.matchStart <= s.MaxDist()
      && SameRun(s.window[..], s.matchStart, s.strstart, best)
  }

  lemma FoundLess(s: DeflateState, best: nat, len: nat)
    requires Found(s, best) && len <= best
    ensures Found(s, len)
  {
  }

  // ---- what is there to be found ----

  /** MAX_DIST back, or the start of the window, which is never matched. */
  function LimitOf(s: DeflateState): nat
    reads s`strstart
  {
    if s.strstart > s.MaxDist() then s.strstart - s.MaxDist() else 0
  }

  /** How many candidates are looked at: fewer where a good match is already there. */
  function ChainLength(s: DeflateState): nat
    reads s`prevLength
  {
    if s.prevLength >= s.cfg.good then s.cfg.maxChain / 4 else s.cfg.maxChain
  }

  /** The first n candidates from v on, link by link while they lie above the limit. */
  ghost function Chain(prev: seq<nat>, wsize: nat, v: nat, limit: nat, n: nat): (c: seq<nat>)
    decreases n
  {
    if n == 0 then []
    else if v >= 2 * wsize || wsize > |prev| || prev[Slot(wsize, v)] <= limit then [v]
    else [v] + Chain(prev, wsize, prev[Slot(wsize, v)], limit, n - 1)
  }

  /** All inserted strings with the key of v, from v back to the limit, are on its chain, in as far as it is
      followed. */
  lemma {:induction false} ChainComplete(h: Hashing, wsize: nat, w: seq<Byte>, head: seq<nat>, prev: seq<nat>,
      ins: set<nat>, cur: nat, lim: nat, top: nat, v: nat, limit: nat, n: nat, t: nat)
    requires Chained(h, wsize, w, head, prev, ins, cur, lim, top) && v in ins && cur < limit + wsize && limit < t <= v
    requires t in ins && t + 2 < |w| && v + 2 < |w| && KeyAt(h, w, t) == KeyAt(h, w, v)
    ensures t in Chain(prev, wsize, v, limit, n) || |Chain(prev, wsize, v, limit, n)| == n
    decreases n
  {
    hide Chained, Three;
    if n > 0 {
      FollowLink(h, wsize, w, head, prev, ins, cur, lim, top, v);
      ChainSizes(h, wsize, w, head, prev, ins, cur, lim, top);
      var u := prev[Slot(wsize, v)];
      assert t < v ==> t <= u;
      if u > limit && t < v { ChainComplete(h, wsize, w, head, prev, ins, cur, lim, top, u, limit, n - 1, t); }
    }
  }

  /** Nothing on this list agrees with the string at strstart in more than len bytes, as far as matches go. */
  ghost predicate NoneLonger(s: DeflateState, c: seq<nat>, len: nat)
    reads s`strstart, s.window
  {
    forall i: nat, k: nat :: i < |c| && k <= MAX_MATCH && SameRun(s.window[..], c[i], s.strstart, k) ==> k <= len
  }

  lemma NoneMore(s: DeflateState, c: seq<nat>, v: nat, len: nat, len': nat)
    requires NoneLonger(s, c, len) && len <= len'
             && forall k: nat :: k <= MAX_MATCH && SameRun(s.window[..], v, s.strstart, k) ==> k <= len'
    ensures NoneLonger(s, c + [v], len')
  {
    hide SameRun;
    var c' := c + [v];
    forall i: nat, k: nat | i < |c'| && k <= MAX_MATCH && SameRun(s.window[..], c'[i], s.strstart, k) ensures k <= len'
    {
      if i < |c| { assert c'[i] == c[i]; }
    }
  }

  /** A byte that differs ends every run. */
  lemma RunEnds(w: seq<Byte>, m: nat, scan: nat, n: nat, k: nat)
    requires SameRun(w, m, scan, k) && m <= scan && scan + n < |w| && w[scan + n] != w[m + n]
    ensures k <= n
  {
  }

  /** The quick tests on four bytes, then the full comparison; zero if a test fails, and then no longer match is
      there. */
  method Compare(s: DeflateState, cur: nat, bestLen: nat, scanEnd1: Byte, scanEnd: Byte) returns (n: nat)
    requires s.Shape() && s.strstart <= s.window.Length - MIN_LOOKAHEAD && Candidate(s, cur)
             && 1 <= bestLen <= MAX_MATCH
    requires scanEnd1 == s.window[s.strstart + bestLen - 1] && scanEnd == s.window[s.strstart + bestLen]
    ensures n <= MAX_MATCH && (n > 0 ==> SameRun(s.window[..], cur, s.strstart, n))
    ensures forall k: nat :: k <= MAX_MATCH && SameRun(s.window[..], cur, s.strstart, k) ==> k <= n || k <= bestLen
  {
    hide Candidate, SameRun, KeyAt, Proper;
    CandidateFacts(s, cur);
    ghost var w, scan := s.window[..], s.strstart;
    forall k: nat | k <= MAX_MATCH && SameRun(w, cur, scan, k)
      ensures k > bestLen ==> w[scan + bestLen] == w[cur + bestLen] && w[scan + bestLen - 1] == w[cur + bestLen - 1]
                              && w[scan] == w[cur] && w[scan + 1] == w[cur + 1]
    {
      if w[scan + bestLen] != w[cur + bestLen] { RunEnds(w, cur, scan, bestLen, k); }
      if w[scan + bestLen - 1] != w[cur + bestLen - 1] { RunEnds(w, cur, scan, bestLen - 1, k); }
      if w[scan] != w[cur] { RunEnds(w, cur, scan, 0, k); }
      if w[scan + 1] != w[cur + 1] { RunEnds(w, cur, scan, 1, k); }
    }
    if s.window[cur + bestLen] != scanEnd || s.window[cur + bestLen - 1] != scanEnd1
      || s.window[cur] != s.window[s.strstart] || s.window[cur + 1] != s.window[s.strstart + 1]
    {
      return 0;
    }
    ThreeAgree(s.cfg.hashing, s.window[..], cur, s.strstart);
    n := Extend(s.window, s.strstart, cur);
    forall k: nat | k <= MAX_MATCH && SameRun(w, cur, scan, k) ensures k <= n {
      if n < MAX_MATCH { RunEnds(w, cur, scan, n, k); }
    }
  }

  /** Nothing on the chain is longer, unless the search stopped at a new match that is long enough. */
  ghost predicate Searched(s: DeflateState, curMatch: nat, len: nat)
    reads s`strstart, s`lookahead, s`prevLength, s.window, s.prev
  {
    var c := Chain(s.prev[..], s.cfg.wsize, curMatch, LimitOf(s), ChainLength(s));
    || (forall i: nat, k: nat ::
          i < |c| && k <= MAX_MATCH && k <= s.lookahead && SameRun(s.window[..], c[i], s.strstart, k) ==> k <= len)
    || ((len >= s.cfg.nice || len == s.lookahead) && (len > s.prevLength || len == s.lookahead))
  }

  /** The candidates before cur are not longer; n are left from cur on. */
  ghost predicate Looking(s: DeflateState, curMatch: nat, before: seq<nat>, cur: nat, n: nat, bestLen: nat)
    reads s`strstart, s`matchStart, s`prevLength, s.window, s.prev
  {
    NoneLonger(s, before, bestLen) && Passed(s, before, cur, bestLen)
      && Chain(s.prev[..], s.cfg.wsize, curMatch, LimitOf(s), ChainLength(s))
         == before + Chain(s.prev[..], s.cfg.wsize, cur, LimitOf(s), n)
  }

  lemma LookFirst(s: DeflateState, curMatch: nat)
    ensures Looking(s, curMatch, [], curMatch, ChainLength(s), s.prevLength)
  {
    hide Chain;
  }

  /** The whole chain has been looked at. */
  ghost predicate Exhausted(s: DeflateState, curMatch: nat, bestLen: nat)
    reads s`strstart, s`matchStart, s`prevLength, s.window, s.prev
  {
    var c := Chain(s.prev[..], s.cfg.wsize, curMatch, LimitOf(s), ChainLength(s));
    NoneLonger(s, c, bestLen) && (bestLen > s.prevLength ==> Shorter(s, c, bestLen))
  }

  /** cur has been compared. */
  lemma LookOn(s: DeflateState, curMatch: nat, before: seq<nat>, cur: nat, n: nat, bestLen: nat)
    requires Looking(s, curMatch, before, cur, n, bestLen) && n >= 1
             && cur < 2 * s.cfg.wsize && s.cfg.wsize == s.prev.Length
    requires forall k: nat :: k <= MAX_MATCH && SameRun(s.window[..], cur, s.strstart, k) ==> k <= bestLen
    ensures var u := s.prev[Slot(s.cfg.wsize, cur)];
            if u > LimitOf(s) && n > 1 then u < cur ==> Looking(s, curMatch, before + [cur], u, n - 1, bestLen)
            else Exhausted(s, curMatch, bestLen)
  {
    hide SameRun, NoneLonger, Chain, Shorter;
    NoneMore(s, before, cur, bestLen, bestLen);
    ShorterMore(s, before, cur, bestLen);
    ChainNext(s.prev[..], s.cfg.wsize, before, cur, LimitOf(s), n);
  }

  lemma ShorterMore(s: DeflateState, c: seq<nat>, v: nat, len: nat)
    ensures Shorter(s, c, len) && s.matchStart >= v ==> Shorter(s, c + [v], len)
  {
    hide SameRun;
  }

  lemma SearchedAll(s: DeflateState, curMatch: nat, bestLen: nat)
    requires Exhausted(s, curMatch, bestLen)
    ensures Searched(s, curMatch, if bestLen <= s.lookahead then bestLen else s.lookahead)
    ensures bestLen > s.prevLength ==> Nearest(s, curMatch, if bestLen <= s.lookahead then bestLen else s.lookahead)
  {
    hide SameRun, Chain;
  }

  /** One more link: the candidates before v, then those from v on. */
  lemma ChainNext(prev: seq<nat>, wsize: nat, before: seq<nat>, v: nat, limit: nat, n: nat)
    requires n >= 1 && v < 2 * wsize && wsize == |prev|
    ensures prev[Slot(wsize, v)] > limit && n > 1 ==>
              before + Chain(prev, wsize, v, limit, n)
              == (before + [v]) + Chain(prev, wsize, prev[Slot(wsize, v)], limit, n - 1)
    ensures prev[Slot(wsize, v)] <= limit || n == 1 ==> before + Chain(prev, wsize, v, limit, n) == before + [v]
  {
    assert n == 1 ==> Chain(prev, wsize, prev[Slot(wsize, v)], limit, 0) == [];
    assert (before + [v]) + Chain(prev, wsize, prev[Slot(wsize, v)], limit, n - 1)
        == before + ([v] + Chain(prev, wsize, prev[Slot(wsize, v)], limit, n - 1));
  }

  /** All later than cur; and those later than the match found are shorter. */
  ghost predicate Passed(s: DeflateState, before: seq<nat>, cur: nat, bestLen: nat)
    reads s`strstart, s`matchStart, s`prevLength, s.window
  {
    && (forall i :: 0 <= i < |before| ==> before[i] > cur)
    && (bestLen > s.prevLength ==> s.matchStart >= cur && Shorter(s, before, bestLen))
  }

  ghost predicate Shorter(s: DeflateState, c: seq<nat>, len: nat)
    reads s`strstart, s`matchStart, s.window
  {
    forall i: nat, k: nat ::
      i < |c| && c[i] > s.matchStart && k <= MAX_MATCH && SameRun(s.window[..], c[i], s.strstart, k) ==> k < len
  }

  /** The match found is the nearest of its length. */
  ghost predicate Nearest(s: DeflateState, curMatch: nat, len: nat)
    reads s`strstart, s`lookahead, s`matchStart, s`prevLength, s.window, s.prev
  {
    len == s.lookahead
    || Shorter(s, Chain(s.prev[..], s.cfg.wsize, curMatch, LimitOf(s), ChainLength(s)), len)
  }

  /** Links lead back. */
  lemma {:induction false} ChainBelow(h: Hashing, wsize: nat, w: seq<Byte>, head: seq<nat>, prev: seq<nat>,
      ins: set<nat>, cur: nat, lim: nat, top: nat, v: nat, limit: nat, n: nat)
    requires Chained(h, wsize, w, head, prev, ins, cur, lim, top) && v in ins && cur < limit + wsize && limit <= v
    ensures forall i :: 0 <= i < |Chain(prev, wsize, v, limit, n)| ==> Chain(prev, wsize, v, limit, n)[i] <= v
    decreases n
  {
    if n > 0 {
      FollowLink(h, wsize, w, head, prev, ins, cur, lim, top, v);
      var u := prev[Slot(wsize, v)];
      hide Chained, Three;
      if u > limit { ChainBelow(h, wsize, w, head, prev, ins, cur, lim, top, u, limit, n - 1); }
    }
  }

  lemma NearestIs(s: DeflateState, curMatch: nat, before: seq<nat>, cur: nat, n: nat, bestLen: nat)
    requires s.Shape() && s.Chains(s.strstart, s.strstart + 1, s.strstart + s.lookahead)
             && s.strstart + 2 < s.window.Length && Candidate(s, cur)
    requires Passed(s, before, cur, bestLen) && bestLen > s.prevLength
    requires Chain(s.prev[..], s.cfg.wsize, curMatch, LimitOf(s), ChainLength(s))
             == before + Chain(s.prev[..], s.cfg.wsize, cur, LimitOf(s), n)
    ensures Shorter(s, Chain(s.prev[..], s.cfg.wsize, curMatch, LimitOf(s), ChainLength(s)), bestLen)
  {
    hide SameRun, Chain, Chained, Three;
    ChainBelow(s.cfg.hashing, s.cfg.wsize, s.window[..], s.head[..], s.prev[..], s.inserted, s.strstart,
               s.strstart + 1, s.strstart + s.lookahead, cur, LimitOf(s), n);
  }

  /** cur is longer than all before it, and becomes the match. */
  lemma PassedMore(s: DeflateState, before: seq<nat>, cur: nat, bestLen: nat, len: nat)
    requires NoneLonger(s, before, bestLen) && (forall i :: 0 <= i < |before| ==> before[i] > cur)
    requires s.matchStart == cur && bestLen < len
    ensures Passed(s, before, cur, len)
  {
    hide SameRun;
  }

  /** A candidate that beats the best so far takes its place. */
  method Improve(s: DeflateState, cur: nat, bestLen: nat, scanEnd1: Byte, scanEnd: Byte, ghost before: seq<nat>)
    returns (best: nat)
    requires s.Shape() && s.strstart <= s.window.Length - MIN_LOOKAHEAD && Candidate(s, cur)
             && 1 <= bestLen <= MAX_MATCH
    requires scanEnd1 == s.window[s.strstart + bestLen - 1] && scanEnd == s.window[s.strstart + bestLen]
    requires NoneLonger(s, before, bestLen) && Passed(s, before, cur, bestLen)
    modifies s`matchStart
    ensures bestLen <= best <= MAX_MATCH && NoneLonger(s, before, best) && Passed(s, before, cur, best)
    ensures if best > bestLen then Found(s, best) else s.matchStart == old(s.matchStart)
    ensures forall k: nat :: k <= MAX_MATCH && SameRun(s.window[..], cur, s.strstart, k) ==> k <= best
  {
    hide Candidate, Found, SameRun, Proper, Pow2, Shorter;
    var n := Compare(s, cur, bestLen, scanEnd1, scanEnd);
    best := bestLen;
    if n > bestLen {
      s.matchStart := cur;
      best := n;
      FoundNew(s, cur, n);
      PassedMore(s, before, cur, bestLen, n);
    }
  }

  /** longest_match: the longest match on the chain, if it is longer than prev_length; with nice_length, the first
      that is long enough. */
  method LongestMatch(s: DeflateState, curMatch: nat) returns (len: nat)
    requires s.Shape() && s.Chains(s.strstart, s.strstart + 1, s.strstart + s.lookahead) && s.lookahead >= MIN_MATCH
    requires s.strstart <= s.window.Length - MIN_LOOKAHEAD && Candidate(s, curMatch) && 1 <= s.prevLength <= MAX_MATCH
    modifies s`matchStart
    ensures len <= s.lookahead && len <= MAX_MATCH
    ensures len > s.prevLength ==> Found(s, len)
    ensures len <= s.prevLength ==> len == s.prevLength || len == s.lookahead
    ensures Searched(s, curMatch, len) && (len > s.prevLength ==> Nearest(s, curMatch, len))
  {
    hide DeflateState.Chains, Candidate, Found, SameRun, Pow2, Proper, Searched, NoneLonger, Chain, Passed, Exhausted,
      Nearest;
    var chainLength, bestLen, nice := s.cfg.maxChain, s.prevLength, s.cfg.nice;
    var limit := if s.strstart > s.MaxDist() then s.strstart - s.MaxDist() else 0;
    var scanEnd1, scanEnd := s.window[s.strstart + bestLen - 1], s.window[s.strstart + bestLen];
    if s.prevLength >= s.cfg.good { chainLength := chainLength / 4; }
    if nice > s.lookahead { nice := s.lookahead; }
    var cur: nat := curMatch;
    ghost var before, enough := [], false;
    LookFirst(s, curMatch);
    while true
      invariant chainLength >= 1 && Candidate(s, cur)
      invariant s.prevLength <= bestLen <= MAX_MATCH && (bestLen > s.prevLength ==> Found(s, bestLen))
      invariant scanEnd1 == s.window[s.strstart + bestLen - 1] && scanEnd == s.window[s.strstart + bestLen]
      invariant !enough && Looking(s, curMatch, before, cur, chainLength, bestLen)
      decreases chainLength
    {
      var best0 := bestLen;
      bestLen := Improve(s, cur, bestLen, scanEnd1, scanEnd, before);
      if bestLen > best0 {
        enough := bestLen >= nice;
        if bestLen >= nice { break; }
        scanEnd1, scanEnd := s.window[s.strstart + bestLen - 1], s.window[s.strstart + bestLen];
      }
      NextCandidate(s, cur, limit, s.strstart + s.lookahead);
      LookOn(s, curMatch, before, cur, chainLength, bestLen);
      before := before + [cur];
      cur := s.prev[Slot(s.cfg.wsize, cur)];
      if !(cur > limit) { break; }
      chainLength := chainLength - 1;
      if chainLength == 0 { break; }
    }
    len := if bestLen <= s.lookahead then bestLen else s.lookahead;
    if bestLen > s.prevLength { FoundLess(s, bestLen, len); }
    if enough { SearchedEnough(s, curMatch, before, cur, chainLength, bestLen); }
    else { SearchedAll(s, curMatch, bestLen); }
  }

  lemma SearchedEnough(s: DeflateState, curMatch: nat, before: seq<nat>, cur: nat, n: nat, bestLen: nat)
    requires bestLen > s.prevLength && (bestLen >= s.cfg.nice || bestLen >= s.lookahead)
    requires s.Shape() && s.Chains(s.strstart, s.strstart + 1, s.strstart + s.lookahead)
             && s.strstart + 2 < s.window.Length && Candidate(s, cur)
    requires Looking(s, curMatch, before, cur, n, bestLen)
    ensures Searched(s, curMatch, if bestLen <= s.lookahead then bestLen else s.lookahead)
    ensures Nearest(s, curMatch, if bestLen <= s.lookahead then bestLen else s.lookahead)
  {
    hide SameRun, Chain, DeflateState.Chains, Candidate, Passed;
    NearestIs(s, curMatch, before, cur, n, bestLen);
  }

  /** Unless the chain was longer than it may be followed, no inserted string from curMatch back to the limit agrees
      in more bytes than the match found, if that is not long enough anyway. */
  lemma NoneMissed(s: DeflateState, curMatch: nat, len: nat, t: nat, k: nat)
    requires s.Shape() && s.Chains(s.strstart, s.strstart + 1, s.strstart + s.lookahead) && s.lookahead >= MIN_MATCH
    requires s.strstart + 2 < s.window.Length && Candidate(s, curMatch) && Searched(s, curMatch, len)
    requires |Chain(s.prev[..], s.cfg.wsize, curMatch, LimitOf(s), ChainLength(s))| < ChainLength(s)
    requires t in s.inserted && LimitOf(s) < t <= curMatch && k <= MAX_MATCH && k <= s.lookahead
    requires 3 <= k && SameRun(s.window[..], t, s.strstart, k)
    ensures k <= len || len >= s.cfg.nice
  {
    var w := s.window[..];
    assert w[s.strstart] == w[t] && w[s.strstart + 1] == w[t + 1] && w[s.strstart + 2] == w[t + 2];
    hide Chained, Three, Pow2, Proper, Chain, SameRun;
    ChainComplete(s.cfg.hashing, s.cfg.wsize, w, s.head[..], s.prev[..], s.inserted, s.strstart,
                  s.strstart + 1, s.strstart + s.lookahead, curMatch, LimitOf(s), ChainLength(s), t);
    var c := Chain(s.prev[..], s.cfg.wsize, curMatch, LimitOf(s), ChainLength(s));
    var i :| 0 <= i < |c| && c[i] == t;
  }

  lemma CandidateFacts(s: DeflateState, v: nat)
    requires s.Shape() && s.strstart + 2 < s.window.Length && Candidate(s, v)
    ensures 0 < v < s.strstart && s.strstart - v <= s.MaxDist()
            && KeyAt(s.cfg.hashing, s.window[..], v) == KeyAt(s.cfg.hashing, s.window[..], s.strstart)
    ensures Proper(s.cfg.hashing)
  {
  }

  lemma FoundNew(s: DeflateState, v: nat, n: nat)
    requires s.strstart + 2 < s.window.Length && Candidate(s, v) && SameRun(s.window[..], v, s.strstart, n)
             && s.matchStart == v
    ensures Found(s, n)
  {
  }
}
