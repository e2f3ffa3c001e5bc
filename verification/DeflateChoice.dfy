/** Which tokens the match strategies choose, as facts about the data: no match worth having is missed,
    except where a call ended the input or the chain holds too many other strings. */
module DeflateChoice {
  import opened Bits
  import opened LzTokens
  import opened RollingHash
  import opened HashChains
  import opened DeflateWindow

  const TOO_FAR := 4096

  datatype Strategy = Fast | Slow | Rle | Huff

  /** Where a call wanted all of its input coded, and where the history begins: the start, or a full flush. */
  datatype Marks = Marks(ends: set<nat>, begins: set<nat>)

  /** The input ended here before k bytes were there. */
  ghost predicate Cut(m: Marks, n: nat, k: nat) {
    exists e :: e in m.ends && n <= e < n + k
  }

  lemma CutWider(m: Marks, n: nat, k: nat, k': nat)
    requires Cut(m, n, k) && k <= k'
    ensures Cut(m, n, k')
  {
  }

  lemma CutHere(m: Marks, e: nat, n: nat, k: nat)
    requires e in m.ends && n <= e < n + k
    ensures Cut(m, n, k)
  {
  }

  /** The positions at which tokens begin. */
  ghost function Starts(ts: seq<Token>): set<nat> {
    if ts == [] then {} else Starts(ts[..|ts| - 1]) + {|Decode(ts[..|ts| - 1])|}
  }

  /** The string at t can be had as a match at n: near enough, not forgotten nor the first of the history, and known
      to the strategy. Greedy matching knows the strings at which a token begins. */
  ghost predicate Offered(strategy: Strategy, c: Config, m: Marks, ts: seq<Token>, t: nat, n: nat) {
    && t < n && n - t < c.wsize - MIN_LOOKAHEAD && !Cut(m, t, MIN_MATCH)
    && (forall r :: r in m.begins ==> r < t || n < r)
    && (strategy == Fast ==> t in Starts(ts))
  }

  /** Other strings after t, latest first, with the key of the string at n. */
  ghost predicate Rivals(h: Hashing, data: seq<Byte>, c: seq<nat>, t: nat, n: nat) {
    && n + 2 < |data| && (forall i :: 0 <= i < |c| ==> t < c[i] < n && KeyAt(h, data, c[i]) == KeyAt(h, data, n))
    && (forall i, j :: 0 <= i < j < |c| ==> c[i] > c[j])
  }

  /** So many of them that the chain is not followed as far as t. */
  ghost predicate Crowded(h: Hashing, data: seq<Byte>, t: nat, n: nat, count: nat) {
    exists c: seq<nat> :: |c| == count && Rivals(h, data, c, t, n)
  }

  /** How many strings are compared when a match of len bytes is there already. */
  function Follow(c: Config, len: nat): nat {
    if len >= c.good then c.maxChain / 4 else c.maxChain
  }

  /** No match on offer at n is longer than len bytes. */
  ghost predicate NoneBetter(strategy: Strategy, c: Config, m: Marks, data: seq<Byte>, ts: seq<Token>, n: nat, len: nat,
      count: nat)
  {
    forall t: nat, k: nat ::
      Offered(strategy, c, m, ts, t, n) && MIN_MATCH <= k <= MAX_MATCH && Repeats(data, n, n - t, k) && !Cut(m, n, k)
      ==> k <= len || Crowded(c.hashing, data, t, n, count)
  }

  /** The byte before n is not repeated more than len times. */
  ghost predicate NoRun(m: Marks, data: seq<Byte>, n: nat, len: nat) {
    forall k: nat :: MIN_MATCH <= k <= MAX_MATCH && Repeats(data, n, 1, k) && !Cut(m, n, k) ==> k <= len
  }

  /** A match at n that is as long as any, or long enough. */
  ghost predicate Best(strategy: Strategy, c: Config, m: Marks, data: seq<Byte>, ts: seq<Token>, n: nat, len: nat,
      count: nat)
  {
    len >= c.nice || NoneBetter(strategy, c, m, data, ts, n, len, count)
  }

  /** Matches up to this length may be thrown away again by lazy matching; of three bytes only if far back. */
  function Weak(c: Config): nat { if c.filtered then 5 else MIN_MATCH }

  function Longer(a: nat, b: nat): nat { if a < b then b else a }

  /** The best match at n is shorter than one at the next byte. */
  ghost predicate Outdone(c: Config, m: Marks, data: seq<Byte>, n: nat, len: nat, dist': nat, len': nat) {
    && Best(Slow, c, m, data, [], n, len, Follow(c, len))
    && MIN_MATCH <= len < len' <= MAX_MATCH && dist' <= c.wsize - MIN_LOOKAHEAD && Repeats(data, n + 1, dist', len')
  }

  /** The best match at n gives way. */
  ghost predicate Deferred(c: Config, m: Marks, data: seq<Byte>, n: nat) {
    exists len: nat, dist': nat, len': nat :: Outdone(c, m, data, n, len, dist', len')
  }

  /** All bytes a match at n could take were there when the token was chosen. */
  ghost predicate Settled(m: Marks, data: seq<Byte>, n: nat) {
    n + MAX_MATCH <= |data| || Cut(m, n, MAX_MATCH)
  }

  /** Three bytes at n do not repeat near by, unless the input ends after them. */
  ghost predicate NoneNear(c: Config, m: Marks, data: seq<Byte>, n: nat, count: nat) {
    !c.filtered ==>
      forall t: nat :: Offered(Slow, c, m, [], t, n) && n - t <= TOO_FAR && Repeats(data, n, n - t, MIN_MATCH)
                       && !Cut(m, n, MIN_MATCH + 1)
                       ==> Crowded(c.hashing, data, t, n, count)
  }

  /** A byte at n that lazy matching has found nothing for. */
  ghost predicate Plain(c: Config, m: Marks, data: seq<Byte>, n: nat) {
    || c.maxLazy < MIN_MATCH || c.nice <= Weak(c)
    || (NoneBetter(Slow, c, m, data, [], n, Weak(c), Follow(c, MIN_MATCH - 1))
        && NoneNear(c, m, data, n, Follow(c, MIN_MATCH - 1)))
  }

  /** Nothing longer than len bytes begins one byte further on. */
  ghost predicate Final(c: Config, m: Marks, data: seq<Byte>, n: nat, len: nat) {
    || len >= c.maxLazy || c.nice <= Weak(c)
    || NoneBetter(Slow, c, m, data, [], n + 1, Longer(len, Weak(c)), Follow(c, len))
  }

  /** The strategy may choose this token for the bytes that follow ts. */
  ghost predicate Chosen(strategy: Strategy, c: Config, m: Marks, data: seq<Byte>, ts: seq<Token>, tok: Token) {
    var n := |Decode(ts)|;
    && (strategy != Huff ==> Settled(m, data, n))
    && match strategy
       case Huff => tok.Lit?
       case Rle =>
         if tok.Lit? then n in m.begins || NoRun(m, data, n, MIN_MATCH - 1)
         else tok.dist == 1 && NoRun(m, data, n, tok.len)
       case Fast =>
         if tok.Lit? then NoneBetter(Fast, c, m, data, ts, n, MIN_MATCH - 1, Follow(c, MIN_MATCH - 1))
         else Best(Fast, c, m, data, ts, n, tok.len, Follow(c, MIN_MATCH - 1))
       case Slow =>
         if tok.Lit? then Plain(c, m, data, n) || Deferred(c, m, data, n)
         else Best(Slow, c, m, data, [], n, tok.len, Follow(c, tok.len)) && Final(c, m, data, n, tok.len)
              && Settled(m, data, n + 1)
  }

  ghost predicate AllChosen(strategy: Strategy, c: Config, m: Marks, data: seq<Byte>, ts: seq<Token>) {
    forall i :: 0 <= i < |ts| ==> Chosen(strategy, c, m, data, ts[..i], ts[i])
  }

  lemma ChosenMore(strategy: Strategy, c: Config, m: Marks, data: seq<Byte>, ts: seq<Token>, tok: Token)
    requires AllChosen(strategy, c, m, data, ts) && Chosen(strategy, c, m, data, ts, tok)
    ensures AllChosen(strategy, c, m, data, ts + [tok])
  {
    hide Chosen;
    var ts' := ts + [tok];
    forall i | 0 <= i < |ts'| ensures Chosen(strategy, c, m, data, ts'[..i], ts'[i]) {
      assert ts'[..i] == ts[..i];
      if i == |ts| { assert ts[..i] == ts; }
    }
  }

  lemma StartsMore(ts: seq<Token>, tok: Token)
    ensures Starts(ts + [tok]) == Starts(ts) + {|Decode(ts)|}
  {
    assert (ts + [tok])[..|ts|] == ts;
  }

  // ---- more input ----

  /** More input, and more marks. */
  ghost predicate Later(m: Marks, data: seq<Byte>, m': Marks, data': seq<Byte>) {
    data <= data' && m.ends <= m'.ends && m.begins <= m'.begins && forall e :: e in m.ends ==> e <= |data|
  }

  lemma CutLater(m: Marks, m': Marks, n: nat, k: nat)
    requires Cut(m, n, k) && m.ends <= m'.ends
    ensures Cut(m', n, k)
  {
  }

  lemma SettledCut(m: Marks, data: seq<Byte>, n: nat, k: nat)
    requires Settled(m, data, n) && n + k > |data| && k <= MAX_MATCH && forall e :: e in m.ends ==> e <= |data|
    ensures Cut(m, n, k)
  {
    var e :| e in m.ends && n <= e < n + MAX_MATCH;
    assert n <= e < n + k;
  }

  /** What can be seen of the later data could be seen before. */
  lemma Seen(m: Marks, data: seq<Byte>, m': Marks, data': seq<Byte>, n: nat, dist: nat, k: nat)
    requires Later(m, data, m', data') && Settled(m, data, n) && k <= MAX_MATCH
    requires Repeats(data', n, dist, k) && !Cut(m', n, k)
    ensures Repeats(data, n, dist, k) && !Cut(m, n, k)
  {
    if Cut(m, n, k) { CutLater(m, m', n, k); }
    if n + k > |data| { SettledCut(m, data, n, k); }
  }

  lemma CrowdedLater(h: Hashing, data: seq<Byte>, data': seq<Byte>, t: nat, n: nat, count: nat)
    requires Crowded(h, data, t, n, count) && data <= data'
    ensures Crowded(h, data', t, n, count)
  {
    hide Three;
    var c :| |c| == count && Rivals(h, data, c, t, n);
    assert Rivals(h, data', c, t, n);
  }

  lemma NoneBetterLater(strategy: Strategy, c: Config, m: Marks, data: seq<Byte>, m': Marks, data': seq<Byte>,
      ts: seq<Token>, n: nat, len: nat, count: nat)
    requires Later(m, data, m', data') && Settled(m, data, n) && NoneBetter(strategy, c, m, data, ts, n, len, count)
    ensures NoneBetter(strategy, c, m', data', ts, n, len, count)
  {
    hide Crowded, Repeats, Starts, Settled;
    forall t: nat, k: nat | Offered(strategy, c, m', ts, t, n) && MIN_MATCH <= k <= MAX_MATCH
                            && Repeats(data', n, n - t, k) && !Cut(m', n, k)
      ensures k <= len || Crowded(c.hashing, data', t, n, count)
    {
      Seen(m, data, m', data', n, n - t, k);
      if Cut(m, t, MIN_MATCH) { CutLater(m, m', t, MIN_MATCH); }
      assert Offered(strategy, c, m, ts, t, n);
      if k > len { CrowdedLater(c.hashing, data, data', t, n, count); }
    }
  }

  lemma NoneNearLater(c: Config, m: Marks, data: seq<Byte>, m': Marks, data': seq<Byte>, n: nat, count: nat)
    requires Later(m, data, m', data') && Settled(m, data, n) && NoneNear(c, m, data, n, count)
    ensures NoneNear(c, m', data', n, count)
  {
    hide Crowded, Repeats, Settled, Starts;
    if !c.filtered {
      forall t: nat | Offered(Slow, c, m', [], t, n) && n - t <= TOO_FAR && Repeats(data', n, n - t, MIN_MATCH)
                      && !Cut(m', n, MIN_MATCH + 1)
        ensures Crowded(c.hashing, data', t, n, count)
      {
        Seen(m, data, m', data', n, n - t, MIN_MATCH);
        if Cut(m, n, MIN_MATCH + 1) { CutLater(m, m', n, MIN_MATCH + 1); }
        if Cut(m, t, MIN_MATCH) { CutLater(m, m', t, MIN_MATCH); }
        assert Offered(Slow, c, m, [], t, n);
        CrowdedLater(c.hashing, data, data', t, n, count);
      }
    }
  }

  /** Nothing at all was found. */
  lemma NoneNearOf(c: Config, m: Marks, data: seq<Byte>, n: nat, len: nat, count: nat)
    requires NoneBetter(Slow, c, m, data, [], n, len, count) && len < MIN_MATCH
    ensures NoneNear(c, m, data, n, count)
  {
    hide Crowded, Repeats, Starts;
    forall t: nat | Offered(Slow, c, m, [], t, n) && n - t <= TOO_FAR && Repeats(data, n, n - t, MIN_MATCH)
                    && !Cut(m, n, MIN_MATCH + 1)
      ensures Crowded(c.hashing, data, t, n, count)
    {
      if Cut(m, n, MIN_MATCH) { CutWider(m, n, MIN_MATCH, MIN_MATCH + 1); }
    }
  }

  lemma NoRunLater(m: Marks, data: seq<Byte>, m': Marks, data': seq<Byte>, n: nat, len: nat)
    requires Later(m, data, m', data') && Settled(m, data, n) && NoRun(m, data, n, len)
    ensures NoRun(m', data', n, len)
  {
    hide Repeats, Settled;
    forall k: nat | MIN_MATCH <= k <= MAX_MATCH && Repeats(data', n, 1, k) && !Cut(m', n, k) ensures k <= len {
      Seen(m, data, m', data', n, 1, k);
    }
  }

  lemma SettledLater(m: Marks, data: seq<Byte>, m': Marks, data': seq<Byte>, n: nat)
    requires Later(m, data, m', data') && Settled(m, data, n)
    ensures Settled(m', data', n)
  {
    if Cut(m, n, MAX_MATCH) { CutLater(m, m', n, MAX_MATCH); }
  }

  lemma BestLater(strategy: Strategy, c: Config, m: Marks, data: seq<Byte>, m': Marks, data': seq<Byte>,
      ts: seq<Token>, n: nat, len: nat, count: nat)
    requires Later(m, data, m', data') && Settled(m, data, n) && Best(strategy, c, m, data, ts, n, len, count)
    ensures Best(strategy, c, m', data', ts, n, len, count)
  {
    hide NoneBetter, Settled, Later;
    if len < c.nice { NoneBetterLater(strategy, c, m, data, m', data', ts, n, len, count); }
  }

  lemma PlainLater(c: Config, m: Marks, data: seq<Byte>, m': Marks, data': seq<Byte>, n: nat)
    requires Later(m, data, m', data') && Settled(m, data, n) && Plain(c, m, data, n)
    ensures Plain(c, m', data', n)
  {
    hide NoneBetter, NoneNear, Settled, Later;
    var count := Follow(c, MIN_MATCH - 1);
    if NoneBetter(Slow, c, m, data, [], n, Weak(c), count) && NoneNear(c, m, data, n, count) {
      NoneBetterLater(Slow, c, m, data, m', data', [], n, Weak(c), count);
      NoneNearLater(c, m, data, m', data', n, count);
    }
  }

  lemma DeferredLater(c: Config, m: Marks, data: seq<Byte>, m': Marks, data': seq<Byte>, n: nat)
    requires Later(m, data, m', data') && Settled(m, data, n) && Deferred(c, m, data, n)
    ensures Deferred(c, m', data', n)
  {
    hide Best, Settled;
    var len: nat, dist': nat, len': nat :| Outdone(c, m, data, n, len, dist', len');
    BestLater(Slow, c, m, data, m', data', [], n, len, Follow(c, len));
    assert Outdone(c, m', data', n, len, dist', len');
  }

  lemma FinalLater(c: Config, m: Marks, data: seq<Byte>, m': Marks, data': seq<Byte>, n: nat, len: nat)
    requires Later(m, data, m', data') && Settled(m, data, n + 1) && Final(c, m, data, n, len)
    ensures Final(c, m', data', n, len)
  {
    hide NoneBetter, Settled, Later;
    var len', count := Longer(len, Weak(c)), Follow(c, len);
    if NoneBetter(Slow, c, m, data, [], n + 1, len', count) {
      NoneBetterLater(Slow, c, m, data, m', data', [], n + 1, len', count);
    }
  }

  /** A choice stays right when more input comes. */
  lemma ChosenLater(strategy: Strategy, c: Config, m: Marks, data: seq<Byte>, m': Marks, data': seq<Byte>,
      ts: seq<Token>, tok: Token)
    requires Later(m, data, m', data') && Chosen(strategy, c, m, data, ts, tok)
    ensures Chosen(strategy, c, m', data', ts, tok)
  {
    hide NoneBetter, NoRun, Best, Plain, Deferred, Final, Settled, Decode;
    var n, count := |Decode(ts)|, Follow(c, MIN_MATCH - 1);
    if strategy != Huff { SettledLater(m, data, m', data', n); }
    match strategy
    case Huff =>
    case Rle =>
      var len := if tok.Lit? then MIN_MATCH - 1 else tok.len;
      if NoRun(m, data, n, len) { NoRunLater(m, data, m', data', n, len); }
    case Fast =>
      if tok.Lit? { NoneBetterLater(Fast, c, m, data, m', data', ts, n, MIN_MATCH - 1, count); }
      else { BestLater(Fast, c, m, data, m', data', ts, n, tok.len, count); }
    case Slow =>
      if tok.Match? {
        BestLater(Slow, c, m, data, m', data', [], n, tok.len, Follow(c, tok.len));
        FinalLater(c, m, data, m', data', n, tok.len);
        SettledLater(m, data, m', data', n + 1);
      } else if Plain(c, m, data, n) {
        PlainLater(c, m, data, m', data', n);
      } else {
        DeferredLater(c, m, data, m', data', n);
      }
  }

  lemma AllLater(strategy: Strategy, c: Config, m: Marks, data: seq<Byte>, m': Marks, data': seq<Byte>, ts: seq<Token>)
    requires Later(m, data, m', data') && AllChosen(strategy, c, m, data, ts)
    ensures AllChosen(strategy, c, m', data', ts)
  {
    hide Chosen, Later;
    forall i | 0 <= i < |ts| ensures Chosen(strategy, c, m', data', ts[..i], ts[i]) {
      ChosenLater(strategy, c, m, data, m', data', ts[..i], ts[i]);
    }
  }

  // ---- fewer rivals, lower standards ----

  lemma CrowdedLess(h: Hashing, data: seq<Byte>, t: nat, n: nat, count: nat, count': nat)
    requires Crowded(h, data, t, n, count) && count' <= count
    ensures Crowded(h, data, t, n, count')
  {
    hide Three;
    var c :| |c| == count && Rivals(h, data, c, t, n);
    assert Rivals(h, data, c[..count'], t, n);
  }

  lemma NoneBetterLess(strategy: Strategy, c: Config, m: Marks, data: seq<Byte>, ts: seq<Token>, n: nat, len: nat,
      len': nat, count: nat, count': nat)
    requires NoneBetter(strategy, c, m, data, ts, n, len, count) && len <= len' && count' <= count
    ensures NoneBetter(strategy, c, m, data, ts, n, len', count')
  {
    hide Crowded, Repeats, Cut;
    forall t: nat, k: nat | Offered(strategy, c, m, ts, t, n) && MIN_MATCH <= k <= MAX_MATCH
                            && Repeats(data, n, n - t, k) && !Cut(m, n, k)
      ensures k <= len' || Crowded(c.hashing, data, t, n, count')
    {
      if k > len' { CrowdedLess(c.hashing, data, t, n, count, count'); }
    }
  }

  lemma {:induction false} StartsBelow(ts: seq<Token>, t: nat)
    requires t in Starts(ts)
    ensures t <= |Decode(ts)|
  {
    var k := |ts| - 1;
    ApplyGrows(Decode(ts[..k]), ts[k]);
    if t in Starts(ts[..k]) { StartsBelow(ts[..k], t); }
  }

  // ---- greedy matching ----

  /** What greedy matching has found out about n: a match of len bytes, or none. */
  ghost predicate Greedy(c: Config, m: Marks, data: seq<Byte>, ts: seq<Token>, n: nat, len: nat) {
    && Settled(m, data, n)
    && if len < MIN_MATCH then NoneBetter(Fast, c, m, data, ts, n, MIN_MATCH - 1, Follow(c, MIN_MATCH - 1))
       else Best(Fast, c, m, data, ts, n, len, Follow(c, MIN_MATCH - 1))
  }

  lemma GreedyChosen(c: Config, m: Marks, data: seq<Byte>, ts: seq<Token>, tok: Token, len: nat)
    requires Greedy(c, m, data, ts, |Decode(ts)|, len)
    requires if len < MIN_MATCH then tok.Lit? else tok.Match? && tok.len == len
    ensures Chosen(Fast, c, m, data, ts, tok)
  {
    hide NoneBetter, Best, Settled, Decode;
  }

  // ---- lazy matching ----

  /** What lazy matching has found out about n before it looks at the next byte. */
  ghost predicate Judged(c: Config, m: Marks, data: seq<Byte>, n: nat, len: nat) {
    && Settled(m, data, n)
    && if len < MIN_MATCH then Plain(c, m, data, n) else Best(Slow, c, m, data, [], n, len, Follow(c, len))
  }

  /** What it has found out about n where a match of before bytes was found one byte back. */
  ghost predicate Looked(c: Config, m: Marks, data: seq<Byte>, n: nat, before: nat, len: nat) {
    && Settled(m, data, n)
    && if before >= c.maxLazy then len < MIN_MATCH
       else if len > before then Best(Slow, c, m, data, [], n, len, Follow(c, before))
       else || c.nice <= Weak(c)
            || (NoneBetter(Slow, c, m, data, [], n, Longer(before, Weak(c)), Follow(c, before))
                && (before < MIN_MATCH && len < MIN_MATCH ==> NoneNear(c, m, data, n, Follow(c, before))))
  }

  lemma JudgedLater(c: Config, m: Marks, data: seq<Byte>, m': Marks, data': seq<Byte>, n: nat, len: nat)
    requires Later(m, data, m', data') && Judged(c, m, data, n, len)
    ensures Judged(c, m', data', n, len)
  {
    hide NoneBetter, Best, Plain, Settled, Later;
    SettledLater(m, data, m', data', n);
    if len < MIN_MATCH { PlainLater(c, m, data, m', data', n); }
    else { BestLater(Slow, c, m, data, m', data', [], n, len, Follow(c, len)); }
  }

  /** The byte at n waits in its turn. */
  lemma LookedJudged(c: Config, m: Marks, data: seq<Byte>, n: nat, before: nat, len: nat)
    requires Looked(c, m, data, n, before, len) && before >= MIN_MATCH - 1 && len >= MIN_MATCH - 1
    requires before < MIN_MATCH || len > before
    ensures Judged(c, m, data, n, len)
  {
    hide NoneBetter, NoneNear, Settled;
    if len >= MIN_MATCH && len < c.nice {
      NoneBetterLess(Slow, c, m, data, [], n, len, len, Follow(c, before), Follow(c, len));
    }
  }

  /** The match one byte back is taken. */
  lemma PreviousChosen(c: Config, m: Marks, data: seq<Byte>, ts: seq<Token>, dist: nat, before: nat, len: nat)
    requires Judged(c, m, data, |Decode(ts)|, before) && Looked(c, m, data, |Decode(ts)| + 1, before, len)
    requires MIN_MATCH <= before && len <= before
    ensures Chosen(Slow, c, m, data, ts, Match(dist, before))
  {
    hide NoneBetter, Best, Settled, Decode;
  }

  /** The byte one back is coded by itself: nothing was found for it, or something better here. */
  lemma WaitingChosen(c: Config, m: Marks, data: seq<Byte>, ts: seq<Token>, b: Byte, before: nat, dist': nat, len': nat)
    requires Judged(c, m, data, |Decode(ts)|, before)
    requires before >= MIN_MATCH ==> before < len' <= MAX_MATCH && dist' <= c.wsize - MIN_LOOKAHEAD
                                     && Repeats(data, |Decode(ts)| + 1, dist', len')
    ensures Chosen(Slow, c, m, data, ts, Lit(b))
  {
    hide NoneBetter, Best, Settled, Decode, Repeats, Plain;
    if before >= MIN_MATCH {
      assert Outdone(c, m, data, |Decode(ts)|, before, dist', len');
    }
  }

  // ---- what is never missed ----

  lemma {:induction false} RivalsDescend(h: Hashing, data: seq<Byte>, c: seq<nat>, t: nat, n: nat, i: nat)
    requires Rivals(h, data, c, t, n) && i < |c|
    ensures c[i] + i < n
  {
    if i > 0 { RivalsDescend(h, data, c, t, n, i - 1); }
  }

  /** There is no crowd where there is no room for one. */
  lemma CrowdedFar(h: Hashing, data: seq<Byte>, t: nat, n: nat, count: nat)
    requires Crowded(h, data, t, n, count) && t < n
    ensures count < n - t
  {
    var c :| |c| == count && Rivals(h, data, c, t, n);
    if count > 0 { RivalsDescend(h, data, c, t, n, count - 1); }
  }

  /** Greedy matching codes a byte by itself only if no string on offer, as near as the chain is long, repeats there. */
  lemma NearFound(c: Config, m: Marks, data: seq<Byte>, ts: seq<Token>, i: nat, t: nat)
    requires AllChosen(Fast, c, m, data, ts) && i < |ts| && ts[i].Lit?
    requires Offered(Fast, c, m, ts[..i], t, |Decode(ts[..i])|) && !Cut(m, |Decode(ts[..i])|, MIN_MATCH)
    requires |Decode(ts[..i])| - t <= Follow(c, MIN_MATCH - 1)
    ensures !Repeats(data, |Decode(ts[..i])|, |Decode(ts[..i])| - t, MIN_MATCH)
  {
    hide Decode, Crowded, Repeats, Starts, Cut;
    var n, count := |Decode(ts[..i])|, Follow(c, MIN_MATCH - 1);
    assert Chosen(Fast, c, m, data, ts[..i], ts[i]);
    if Crowded(c.hashing, data, t, n, count) { CrowdedFar(c.hashing, data, t, n, count); }
  }

  /** Lazy matching passes over a repetition worth having, as near as the chain is long, only for a longer one at the
      next byte. */
  lemma NearTaken(c: Config, m: Marks, data: seq<Byte>, ts: seq<Token>, i: nat, t: nat, k: nat)
    requires AllChosen(Slow, c, m, data, ts) && i < |ts| && ts[i].Lit? && MIN_MATCH <= k <= MAX_MATCH
             && c.maxLazy >= MIN_MATCH && c.nice > Weak(c)
    requires k > Weak(c) || (!c.filtered && |Decode(ts[..i])| - t <= TOO_FAR
                             && !Cut(m, |Decode(ts[..i])|, MIN_MATCH + 1))
    requires Offered(Slow, c, m, [], t, |Decode(ts[..i])|) && !Cut(m, |Decode(ts[..i])|, k)
    requires |Decode(ts[..i])| - t <= Follow(c, MIN_MATCH - 1)
    requires Repeats(data, |Decode(ts[..i])|, |Decode(ts[..i])| - t, k)
    ensures Deferred(c, m, data, |Decode(ts[..i])|)
  {
    hide Decode, Crowded, Repeats, Starts, Cut, Deferred;
    var n, count := |Decode(ts[..i])|, Follow(c, MIN_MATCH - 1);
    assert Chosen(Slow, c, m, data, ts[..i], ts[i]);
    if Crowded(c.hashing, data, t, n, count) { CrowdedFar(c.hashing, data, t, n, count); }
  }
}
