/** What a run of the compressor keeps true of the tokens it has chosen. */
module DeflateTrace {
  import opened Bits
  import opened LzTokens
  import opened RollingHash
  import opened HashChains
  import opened DeflateWindow
  import opened DeflateFill
  import opened DeflateMatch
  import opened DeflateChoice
  import opened DeflateSearch

  /** All tokens were well chosen, and the strings needed to go on choosing are there. */
  ghost predicate Traced(s: DeflateState, strategy: Strategy, total: seq<Byte>, m: Marks)
    reads s`tokens, s`blocks, s`input, s`lookahead, s`strstart, s`inserted
  {
    && AllChosen(strategy, s.cfg, m, total, s.All()) && (forall e :: e in m.ends ==> e <= |total|) && Begun(s, m)
    && (strategy == Fast || strategy == Slow ==>
          Recalls(s.inserted, Base(s), Base(s) + s.strstart, strategy, m, s.All()))
  }

  /** Bytes are short only where the input given so far ends, in a call that wants all of it coded. */
  ghost predicate Supplied(s: DeflateState, need: nat, total: seq<Byte>, m: Marks)
    reads s`input, s`lookahead
  {
    s.input <= total && s.lookahead <= |s.input| && (s.lookahead < need ==> s.input == total && |total| in m.ends)
  }

  lemma SettledHere(s: DeflateState, total: seq<Byte>, m: Marks)
    requires Supplied(s, MAX_MATCH, total, m)
    ensures Settled(m, total, |s.input| - s.lookahead)
  {
    var n := |s.input| - s.lookahead;
    if s.lookahead < MAX_MATCH { assert |total| in m.ends && n <= |total| < n + MAX_MATCH; }
  }

  /** Filling the window changes nothing of this. */
  lemma TracedKept(s: DeflateState, strategy: Strategy, total: seq<Byte>, m: Marks, base: int, start: nat,
      ins: set<nat>)
    requires AllChosen(strategy, s.cfg, m, total, s.All()) && (forall e :: e in m.ends ==> e <= |total|)
    requires start < s.MaxDist() ==> base in m.begins
    requires strategy == Fast || strategy == Slow ==> Recalls(ins, base, base + start, strategy, m, s.All())
    requires Base(s) + s.strstart == base + start && Keeps(ins, s.inserted, start - s.strstart)
             && (s.strstart == start || s.MaxDist() <= s.strstart < start)
    ensures Traced(s, strategy, total, m)
  {
    hide AllChosen, Cut, Starts;
    var b := Base(s);
    if strategy == Fast || strategy == Slow {
      forall t: nat | b < t < b + s.strstart && !Cut(m, t, MIN_MATCH) && (strategy == Fast ==> t in Starts(s.All()))
        ensures t - b in s.inserted
      {
        assert t - base in ins;
      }
    }
  }

  /** The token just tallied. */
  lemma TracedOn(s: DeflateState, strategy: Strategy, total: seq<Byte>, m: Marks, ts: seq<Token>, tok: Token, n: nat,
      ins: set<nat>)
    requires AllChosen(strategy, s.cfg, m, total, ts) && (forall e :: e in m.ends ==> e <= |total|) && Begun(s, m)
    requires Chosen(strategy, s.cfg, m, total, ts, tok) && s.All() == ts + [tok]
    requires strategy == Fast || strategy == Slow ==>
               ins <= s.inserted && Recalls(ins, Base(s), n, strategy, m, ts) && Remembers(s, strategy, m, n)
    requires strategy == Fast ==> n == |Decode(ts)|
    ensures Traced(s, strategy, total, m)
  {
    hide Cut, Chosen, AllChosen, Starts, Decode;
    ChosenMore(strategy, s.cfg, m, total, ts, tok);
    StartsMore(ts, tok);
    if strategy == Fast || strategy == Slow {
      forall t: nat | Base(s) < t < Base(s) + s.strstart && !Cut(m, t, MIN_MATCH)
                      && (strategy == Fast ==> t in Starts(s.All()))
        ensures t - Base(s) in s.inserted
      {
        if t < n { } else if strategy == Fast && t in Starts(ts) { StartsBelow(ts, t); }
      }
    }
  }

  /** From n on, the strings passed over have been inserted; of a match, greedy matching needs only the first. */
  ghost predicate Remembers(s: DeflateState, strategy: Strategy, m: Marks, n: nat)
    reads s`input, s`lookahead, s`strstart, s`inserted
  {
    forall t: nat ::
      n <= t < Base(s) + s.strstart && Base(s) < t && !Cut(m, t, MIN_MATCH) && (strategy == Fast ==> t == n)
      ==> t - Base(s) in s.inserted
  }

  lemma RecallsMore(ins: set<nat>, ins': set<nat>, base: int, n: int, strategy: Strategy, m: Marks, ts: seq<Token>)
    requires Recalls(ins, base, n, strategy, m, ts) && ins <= ins'
    ensures Recalls(ins', base, n, strategy, m, ts)
  {
    hide Cut, Starts;
  }

  /** Fewer than three bytes are left. */
  lemma NothingLeft(s: DeflateState, strategy: Strategy, m: Marks, total: seq<Byte>, ts: seq<Token>, len: nat,
      count: nat)
    requires s.input == total && s.lookahead < MIN_MATCH && s.lookahead <= |s.input|
    ensures NoneBetter(strategy, s.cfg, m, total, ts, |s.input| - s.lookahead, len, count)
  {
    hide Crowded, Starts, Cut;
  }

  /** What is known before the string at strstart is looked up. */
  ghost predicate Prepared(s: DeflateState, strategy: Strategy, total: seq<Byte>, m: Marks)
    reads s`tokens, s`blocks, s`input, s`lookahead, s`strstart, s`inserted
  {
    && Supplied(s, MIN_LOOKAHEAD, total, m) && Begun(s, m) && Base(s) >= 0
    && Recalls(s.inserted, Base(s), Base(s) + s.strstart, strategy, m, s.All())
  }

  lemma PreparedNow(s: DeflateState, strategy: Strategy, total: seq<Byte>, m: Marks, ins: set<nat>)
    requires Supplied(s, MIN_LOOKAHEAD, total, m) && Begun(s, m) && s.Data() && ins <= s.inserted
    requires Recalls(ins, Base(s), Base(s) + s.strstart, strategy, m, s.All())
    ensures Prepared(s, strategy, total, m)
  {
    hide Cut, Starts, Recalls, Begun;
    RecallsMore(ins, s.inserted, Base(s), Base(s) + s.strstart, strategy, m, s.All());
  }

  /** What a search that was made, or was not worth making, says. */
  lemma FoundOut(s: DeflateState, strategy: Strategy, total: seq<Byte>, m: Marks, hashHead: nat, len: nat)
    requires Prepared(s, strategy, total, m) && s.strstart + 2 < s.window.Length
    requires if s.lookahead < MIN_MATCH then hashHead == 0 else Asked(s, hashHead)
    requires Near(s, hashHead) ==> Candidate(s, hashHead) && Searched(s, hashHead, len)
                                   && (len < s.cfg.nice || len <= s.prevLength)
    ensures NoneBetter(strategy, s.cfg, m, total, s.All(), |s.input| - s.lookahead, len, Follow(s.cfg, s.prevLength))
  {
    hide Crowded, Starts, Cut, Recalls, Begun, NoneBetter, Asked, Candidate, Searched;
    if s.lookahead < MIN_MATCH {
      NothingLeft(s, strategy, m, total, s.All(), len, Follow(s.cfg, s.prevLength));
    } else {
      SearchIs(s, strategy, m, total, s.All(), hashHead, len);
    }
  }

  /** Greedy matching: the match found at strstart, or none. */
  lemma FastGreedy(s: DeflateState, total: seq<Byte>, m: Marks, hashHead: nat)
    requires Prepared(s, Fast, total, m) && s.prevLength == MIN_MATCH - 1 && s.strstart + 2 < s.window.Length
    requires if s.lookahead < MIN_MATCH then hashHead == 0 else Asked(s, hashHead)
    requires if Near(s, hashHead) then Candidate(s, hashHead) && Searched(s, hashHead, s.matchLength)
             else s.matchLength < MIN_MATCH
    ensures Greedy(s.cfg, m, total, s.All(), |s.input| - s.lookahead, s.matchLength)
  {
    hide NoneBetter, Asked, Candidate, Searched, Begun, Recalls;
    SettledHere(s, total, m);
    if s.matchLength < MIN_MATCH {
      FoundOut(s, Fast, total, m, hashHead, if Near(s, hashHead) then s.matchLength else MIN_MATCH - 1);
      hide Settled;
      if Near(s, hashHead) {
        NoneBetterLess(Fast, s.cfg, m, total, s.All(), |s.input| - s.lookahead, s.matchLength, MIN_MATCH - 1,
                       Follow(s.cfg, s.prevLength), Follow(s.cfg, s.prevLength));
      }
    } else if s.matchLength < s.cfg.nice {
      FoundOut(s, Fast, total, m, hashHead, s.matchLength);
    }
  }

  /** A match of three bytes so far back is not worth its bits; a filtered stream has other reasons. */
  ghost predicate NotWorth(s: DeflateState, raw: nat)
    reads s`strstart, s`matchStart
  {
    s.cfg.filtered || (raw == MIN_MATCH && s.strstart - s.matchStart > TOO_FAR)
  }

  /** The match found was too far back, and it is the nearest: three bytes do not repeat nearer. */
  lemma NoneNearHere(s: DeflateState, total: seq<Byte>, m: Marks, hashHead: nat)
    requires Prepared(s, Slow, total, m) && s.strstart + 2 < s.window.Length
    requires if s.lookahead < MIN_MATCH then hashHead == 0 else Asked(s, hashHead)
    requires Candidate(s, hashHead) && Nearest(s, hashHead, MIN_MATCH) && s.strstart - s.matchStart > TOO_FAR
    ensures NoneNear(s.cfg, m, total, |s.input| - s.lookahead, Follow(s.cfg, s.prevLength))
  {
    hide Crowded, Starts, Cut, Begun, Asked, SameRun, Repeats, Chain, KeyAt, Recalls;
    var n, c := |s.input| - s.lookahead, Chain(s.prev[..], s.cfg.wsize, hashHead, LimitOf(s), ChainLength(s));
    forall t: nat | Offered(Slow, s.cfg, m, [], t, n) && n - t <= TOO_FAR && Repeats(total, n, n - t, MIN_MATCH)
                    && !Cut(m, n, MIN_MATCH + 1)
      ensures Crowded(s.cfg.hashing, total, t, n, Follow(s.cfg, s.prevLength))
    {
      assert Offered(Slow, s.cfg, m, s.All(), t, n);
      OfferedHere(s, Slow, m, total, s.All(), hashHead, t, MIN_MATCH);
      if s.lookahead == MIN_MATCH { CutHere(m, |total|, n, MIN_MATCH + 1); }
      var v: nat := t - Base(s);
      NotBeyond(s, c, v);
      Missed(s, hashHead, v, total);
    }
  }

  lemma NotBeyond(s: DeflateState, c: seq<nat>, v: nat)
    requires Shorter(s, c, MIN_MATCH) && v > s.matchStart && SameRun(s.window[..], v, s.strstart, MIN_MATCH)
    ensures v !in c
  {
    hide SameRun;
  }

  lemma FilteredNear(c: Config, m: Marks, data: seq<Byte>, n: nat, count: nat)
    ensures c.filtered ==> NoneNear(c, m, data, n, count)
  {
  }

  /** Lazy matching: what the search came to, unless it was not worth making or its match not worth keeping. */
  lemma SlowLooked(s: DeflateState, total: seq<Byte>, m: Marks, hashHead: nat, raw: nat)
    requires Prepared(s, Slow, total, m) && s.prevLength >= MIN_MATCH - 1 && s.strstart + 2 < s.window.Length
    requires if s.lookahead < MIN_MATCH then hashHead == 0 else Asked(s, hashHead)
    requires if Near(s, hashHead) && s.prevLength < s.cfg.maxLazy
             then Candidate(s, hashHead) && Searched(s, hashHead, raw)
                  && (s.matchLength == raw
                      || (s.matchLength == MIN_MATCH - 1 && raw <= Weak(s.cfg) && NotWorth(s, raw)))
                  && (raw > s.prevLength ==> Nearest(s, hashHead, raw))
             else s.matchLength == MIN_MATCH - 1
    ensures Looked(s.cfg, m, total, |s.input| - s.lookahead, s.prevLength, s.matchLength)
  {
    hide NoneBetter, NoneNear, Asked, Candidate, Searched, Nearest, Begun, Recalls;
    var n, count := |s.input| - s.lookahead, Follow(s.cfg, s.prevLength);
    SettledHere(s, total, m);
    hide Settled;
    FilteredNear(s.cfg, m, total, n, count);
    if s.prevLength < s.cfg.maxLazy {
      var len := Longer(s.prevLength, Weak(s.cfg));
      if !Near(s, hashHead) {
        FoundOut(s, Slow, total, m, hashHead, MIN_MATCH - 1);
        SearchedShort(s.cfg, m, total, s.All(), n, MIN_MATCH - 1, len, count);
      } else if raw < s.cfg.nice || raw <= s.prevLength {
        FoundOut(s, Slow, total, m, hashHead, raw);
        NoOther(s.cfg, m, total, s.All(), n, raw, count);
        if raw <= len { SearchedShort(s.cfg, m, total, s.All(), n, raw, len, count); }
        if s.matchLength != raw && raw > s.prevLength && !s.cfg.filtered { NoneNearHere(s, total, m, hashHead); }
      }
    }
  }

  lemma SearchedShort(c: Config, m: Marks, data: seq<Byte>, ts: seq<Token>, n: nat, raw: nat, len: nat, count: nat)
    requires NoneBetter(Slow, c, m, data, ts, n, raw, count) && raw <= len
    ensures NoneBetter(Slow, c, m, data, [], n, len, count) && (raw < MIN_MATCH ==> NoneNear(c, m, data, n, count))
  {
    hide Crowded, Repeats, NoneBetter, Starts;
    NoOther(c, m, data, ts, n, raw, count);
    NoneBetterLess(Slow, c, m, data, [], n, raw, len, count, count);
    if raw < MIN_MATCH { NoneNearOf(c, m, data, n, raw, count); }
  }

  /** Lazy matching knows all strings, whatever the tokens. */
  lemma NoOther(c: Config, m: Marks, data: seq<Byte>, ts: seq<Token>, n: nat, len: nat, count: nat)
    ensures NoneBetter(Slow, c, m, data, ts, n, len, count) ==> NoneBetter(Slow, c, m, data, [], n, len, count)
  {
    hide Crowded, Repeats, Cut;
    forall t: nat | Offered(Slow, c, m, [], t, n) ensures Offered(Slow, c, m, ts, t, n) {
    }
  }

  /** The string at strstart has been inserted, unless it begins the history or is cut off. */
  ghost predicate Noted(s: DeflateState, m: Marks)
    reads s`input, s`lookahead, s`strstart, s`inserted
  {
    s.strstart > 0 && s.lookahead <= |s.input| && !Cut(m, |s.input| - s.lookahead, MIN_MATCH)
    ==> s.strstart in s.inserted
  }

  lemma NotedHere(s: DeflateState, total: seq<Byte>, m: Marks)
    requires Supplied(s, MIN_LOOKAHEAD, total, m) && (s.lookahead >= MIN_MATCH && s.strstart > 0 ==>
                                                        s.strstart in s.inserted)
    ensures Noted(s, m)
  {
    var n := |s.input| - s.lookahead;
    if s.lookahead < MIN_MATCH { assert |total| in m.ends && n <= |total| < n + MIN_MATCH; }
  }

  lemma BegunOn(s: DeflateState, m: Marks, base: int, start: nat)
    requires start < s.MaxDist() ==> base in m.begins
    requires Base(s) == base && s.strstart >= start
    ensures Begun(s, m)
  {
  }

  lemma TalliedLength(s: DeflateState, n: nat)
    requires s.Tallied(n)
    ensures |Decode(s.All())| == n
  {
  }

  ghost predicate NoLongerRun(w: seq<Byte>, m: nat, at: nat, run: nat) {
    forall k: nat :: k <= MAX_MATCH && SameRun(w, m, at, k) ==> k <= run
  }

  /** The run at strstart, cut off where the data is. */
  lemma RunIs(s: DeflateState, total: seq<Byte>, m: Marks, run: nat, len: nat)
    requires s.Data() && Supplied(s, MAX_MATCH + 1, total, m) && s.strstart > 0
    requires NoLongerRun(s.window[..], s.strstart - 1, s.strstart, run)
    requires run <= len || s.lookahead <= len
    ensures NoRun(m, total, |s.input| - s.lookahead, len)
  {
    hide Cut;
    var n := |s.input| - s.lookahead;
    DataAt(s, s.strstart - 1);
    forall k: nat | MIN_MATCH <= k <= MAX_MATCH && Repeats(total, n, 1, k) && !Cut(m, n, k) ensures k <= len {
      assert Repeats(s.input, n, 1, k);
      SameInWindow(s, s.strstart - 1, k);
    }
  }

  lemma NoRunLeft(s: DeflateState, total: seq<Byte>, m: Marks, len: nat)
    requires s.input == total && s.lookahead < MIN_MATCH && s.lookahead <= |s.input|
    ensures NoRun(m, total, |s.input| - s.lookahead, len)
  {
    hide Cut;
  }
}
