/** The match strategies: whatever they choose, the tokens decode to the bytes they were given. */
module Deflate {
  import opened Bits
  import opened LzTokens
  import opened RollingHash
  import opened HashChains
  import opened DeflateWindow
  import opened DeflateMatch
  import opened DeflateFill
  import opened DeflateChoice
  import opened DeflateSearch
  import opened DeflateTrace

  datatype Flush = NoFlush | SomeFlush | FinishFlush
  datatype Answer = NeedMore | BlockDone | FinishStarted | FinishDone

  // ---- tokens and blocks ----

  /** _tr_tally_lit: true when the buffers are full. */
  method TallyLit(s: DeflateState, c: Byte, ghost n: nat) returns (bflush: bool)
    requires s.Tallied(n) && s.Room() && n < |s.input| && c == s.input[n]
    modifies s`tokens
    ensures s.Tallied(n + 1) && (!bflush ==> s.Room()) && s.All() == old(s.All()) + [Lit(c)]
  {
    DecodeLit(s.All(), s.input, n, s.MaxDist());
    assert s.All() + [Lit(c)] == TokensOf(s.blocks) + (s.tokens + [Lit(c)]);
    s.tokens := s.tokens + [Lit(c)];
    bflush := |s.tokens| == s.cfg.litBufsize - 1;
  }

  /** _tr_tally_dist. */
  method TallyDist(s: DeflateState, dist: nat, len: nat, ghost n: nat) returns (bflush: bool)
    requires s.Tallied(n) && s.Room() && Repeats(s.input, n, dist, len) && MIN_MATCH <= len <= MAX_MATCH
             && dist <= s.MaxDist()
    modifies s`tokens
    ensures s.Tallied(n + len) && (!bflush ==> s.Room()) && s.All() == old(s.All()) + [Match(dist, len)]
  {
    DecodeMatch(s.All(), s.input, n, dist, len, s.MaxDist());
    assert s.All() + [Match(dist, len)] == TokensOf(s.blocks) + (s.tokens + [Match(dist, len)]);
    s.tokens := s.tokens + [Match(dist, len)];
    bflush := |s.tokens| == s.cfg.litBufsize - 1;
  }

  /** The block's bytes in the window are those of the input. */
  lemma RawIs(s: DeflateState, from: nat, n: nat)
    requires s.Data() && s.lookahead <= |s.input| && n == |s.input| - s.lookahead && 0 <= s.blockStart
    requires from == n - s.strstart + s.blockStart <= n
    ensures s.blockStart <= s.strstart <= s.window.Length && s.window[s.blockStart..s.strstart] == s.input[from..n]
    ensures s.input[..from] + s.input[from..n] == s.input[..n]
  {
    var k := s.strstart + s.lookahead;
    assert s.window[..][..k] == s.input[|s.input| - k..];
    assert s.window[s.blockStart..s.strstart] == s.window[..][..k][s.blockStart..s.strstart];
    assert s.input[from..n] == s.input[|s.input| - k..][s.blockStart..s.strstart];
  }

  /** FLUSH_BLOCK_ONLY: hands the block on, with its bytes if they are still in the window.
      Whether the output is full afterwards depends on the caller's buffer. */
  method FlushBlock(s: DeflateState, last: bool) returns (full: bool)
    requires s.Data() && s.Span() && s.cfg.litBufsize >= 128 && s.lookahead <= |s.input|
             && s.Tallied(|s.input| - s.lookahead)
    modifies s`tokens, s`blocks, s`blockStart
    ensures s.Span() && s.Tallied(|s.input| - s.lookahead) && s.Room() && s.tokens == []
    ensures |s.blocks| == |old(s.blocks)| + 1 && s.blocks[..|old(s.blocks)|] == old(s.blocks)
            && s.blocks[|s.blocks| - 1].last == last && s.All() == old(s.All())
  {
    ghost var n, from := |s.input| - s.lookahead, |s.input| - s.lookahead - s.strstart + s.blockStart;
    DecodeGrows(TokensOf(s.blocks), s.tokens);
    assert from <= n by { assert |Decode(TokensOf(s.blocks))| == from && |Decode(s.All())| == n; }
    var raw := if s.blockStart >= 0 then InWindow(s.window[s.blockStart..s.strstart]) else Gone;
    if s.blockStart >= 0 { RawIs(s, from, n); }
    var b := Block(s.tokens, raw, last);
    RawsMore(s.blocks, b);
    TokensMore(s.blocks, b);
    s.blocks := s.blocks + [b];
    s.tokens := [];
    s.blockStart := s.strstart;
    assert s.All() == TokensOf(s.blocks);
    full := *;
  }

  // ---- what all strategies keep ----

  lemma ChainsOn(s: DeflateState, cur: nat, cur': nat, lim: nat, lim': nat, top: nat)
    requires s.Chains(cur, lim, top) && cur <= cur' && lim <= lim'
    ensures s.Chains(cur', lim', top)
  {
    var w := s.window[..];
    ChainSizes(s.cfg.hashing, s.cfg.wsize, w, s.head[..], s.prev[..], s.inserted, cur, lim, top);
    ChainsStay(s.cfg.hashing, s.cfg.wsize, w, w, s.head[..], s.prev[..], s.inserted, cur, cur', lim, lim', top, top);
  }

  /** No string was inserted whose third byte is not there yet. */
  lemma ChainsTight(s: DeflateState, cur: nat, lim: nat, lim': nat, top: nat)
    requires s.Chains(cur, lim, top) && lim' + 2 >= top
    ensures s.Chains(cur, lim', top)
  {
    hide Under, Links;
  }

  /** The byte at strstart is the next one to encode. */
  lemma NextByte(s: DeflateState, back: nat)
    requires s.Data() && back <= s.strstart && s.lookahead + back > 0
    ensures s.strstart + s.lookahead <= s.window.Length && s.lookahead + s.strstart <= |s.input|
    ensures s.window[s.strstart - back] == s.input[|s.input| - s.lookahead - back]
  {
    var n := s.strstart + s.lookahead;
    assert s.window[..][..n][s.strstart - back] == s.input[|s.input| - n..][s.strstart - back];
  }

  /** The state between calls and between steps, without a pending match. */
  ghost predicate Going(s: DeflateState, keyed: bool, total: seq<Byte>)
    reads s`strstart, s`lookahead, s`insert, s`input, s`inserted, s`insH, s`tokens, s`blocks, s`blockStart, s`nextIn,
          s.window, s.prev, s.head
  {
    && s.Valid(keyed) && s.lookahead <= |s.input| && s.Tallied(|s.input| - s.lookahead) && s.Span() && s.Room()
       && s.Reads(total)
  }

  /** Everything given has been tallied. */
  ghost predicate Done(s: DeflateState, total: seq<Byte>)
    reads s`lookahead, s`nextIn, s`tokens, s`blocks
  {
    s.lookahead == 0 && s.nextIn == [] && s.tokens == [] && Decode(TokensOf(s.blocks)) == total
  }

  /** What the state says of the input read so far. */
  ghost predicate Account(s: DeflateState, input: seq<Byte>, n: int, gap: int)
    reads s`tokens, s`blocks
  {
    && 0 <= n <= |input| && Decode(s.All()) == input[..n] && AllEncodable(s.All(), s.MaxDist()) && RawsAgree(s.blocks)
    && 0 <= n + gap <= |input| && Decode(TokensOf(s.blocks)) == input[..n + gap]
  }

  lemma AccountIs(s: DeflateState, n: int, gap: int)
    requires n + gap == |s.input| - s.lookahead - s.strstart + s.blockStart
    ensures Account(s, s.input, n, gap) <==> 0 <= n && s.Tallied(n) && s.Span()
  {
    hide AllEncodable, RawsAgree, Decode, TokensOf;
  }

  lemma AccountMore(s: DeflateState, input: seq<Byte>, input': seq<Byte>, n: int, gap: int)
    requires Account(s, input, n, gap) && input <= input'
    ensures Account(s, input', n, gap)
  {
    hide AllEncodable, RawsAgree, Decode, TokensOf;
    assert input'[..n] == input[..n] && input'[..n + gap] == input[..n + gap];
  }

  lemma DataIn(s: DeflateState, keyed: bool)
    requires s.Valid(keyed)
    ensures s.strstart + s.lookahead <= s.window.Length == 2 * s.cfg.wsize && s.strstart + s.lookahead <= |s.input|
            && Usable(s.cfg)
  {
  }

  /** The bookkeeping that moving on does not disturb. */
  ghost predicate Ledger(s: DeflateState, n: int, total: seq<Byte>)
    reads s`strstart, s`lookahead, s`input, s`tokens, s`blocks, s`blockStart, s`nextIn
  {
    && s.strstart + s.lookahead <= |s.input| && 0 <= n && n == |s.input| - s.lookahead && s.Tallied(n) && s.Span()
       && s.Reads(total) && s.cfg.litBufsize >= 128
  }

  lemma LedgerOf(s: DeflateState, keyed: bool, total: seq<Byte>)
    requires s.Valid(keyed)
    ensures Going(s, keyed, total) <==> Ledger(s, |s.input| - s.lookahead, total) && s.Room()
  {
    DataIn(s, keyed);
    hide DeflateState.Valid, DeflateState.Tallied, DeflateState.Span, DeflateState.Reads;
  }

  /** FLUSH_BLOCK: all that has been tallied goes out. */
  method FlushNow(s: DeflateState, last: bool, ghost keyed: bool, ghost total: seq<Byte>) returns (full: bool)
    requires s.Valid(keyed) && Ledger(s, |s.input| - s.lookahead, total)
    modifies s`tokens, s`blocks, s`blockStart
    ensures s.Valid(keyed) && Ledger(s, |s.input| - s.lookahead, total) && s.Room() && s.tokens == []
    ensures |s.blocks| == |old(s.blocks)| + 1 && s.blocks[|s.blocks| - 1].last == last && s.All() == old(s.All())
  {
    hide DeflateState.Chains, DeflateState.KeyFor, Decode, TokensOf, Holds, RawsAgree, AllEncodable;
    full := FlushBlock(s, last);
  }

  lemma DoneIs(s: DeflateState, total: seq<Byte>)
    requires Ledger(s, |s.input|, total) && s.lookahead == 0 && s.nextIn == [] && s.tokens == []
    ensures Done(s, total)
  {
    assert s.input == total && s.input[..|s.input|] == total;
    assert s.All() == TokensOf(s.blocks);
  }

  /** The end of a call: the last flush, if there is anything to flush. */
  method EndBlocks(s: DeflateState, flush: Flush, ghost keyed: bool, ghost total: seq<Byte>) returns (answer: Answer)
    requires s.Valid(keyed) && Ledger(s, |s.input|, total) && s.lookahead == 0 && s.nextIn == [] && flush != NoFlush
    modifies s`tokens, s`blocks, s`blockStart
    ensures Going(s, keyed, total) && Outcome(s, flush, total, answer) && Done(s, total) && s.All() == old(s.All())
    ensures flush == FinishFlush ==> answer != NeedMore
    ensures |s.blocks| >= |old(s.blocks)| && (answer == NeedMore ==> |s.blocks| > |old(s.blocks)|)
  {
    hide DeflateState.Valid, Ledger, Done, Going;
    if flush == FinishFlush {
      var full := FlushNow(s, true, keyed, total);
      answer := if full then FinishStarted else FinishDone;
    } else if |s.tokens| > 0 {
      var full := FlushNow(s, false, keyed, total);
      answer := if full then NeedMore else BlockDone;
    } else {
      RoomEmpty(s, keyed);
      answer := BlockDone;
    }
    DoneIs(s, total);
    LedgerOf(s, keyed, total);
  }

  lemma RoomEmpty(s: DeflateState, keyed: bool)
    requires s.Valid(keyed) && s.tokens == []
    ensures s.Room()
  {
  }

  /** What an answer tells the caller. */
  ghost predicate Outcome(s: DeflateState, flush: Flush, total: seq<Byte>, answer: Answer)
    reads s
  {
    && (answer != NeedMore ==> Done(s, total))
    && (answer == FinishStarted || answer == FinishDone ==>
          flush == FinishFlush && s.blocks != [] && s.blocks[|s.blocks| - 1].last)
    && (flush == FinishFlush ==> answer != BlockDone)
    && (flush == NoFlush ==> answer == NeedMore)
  }

  // ---- greedy matching ----

  ghost predicate FastState(s: DeflateState, total: seq<Byte>)
    reads s, s.window, s.prev, s.head
  {
    Going(s, true, total) && s.matchLength < MIN_MATCH && s.prevLength == MIN_MATCH - 1
  }

  /** Valid, except that the string at strstart may be inserted already. */
  ghost predicate Inserted(s: DeflateState)
    reads s`strstart, s`lookahead, s`insert, s`input, s`inserted, s`insH, s.window, s.prev, s.head
  {
    && s.Shape() && s.Data() && s.Waiting() && s.lookahead > 0 && s.KeyFor(s.strstart + 1, s.strstart + s.lookahead)
    && s.Chains(s.strstart, if s.lookahead >= MIN_MATCH then s.strstart + 1
                                                             else s.strstart - s.insert, s.strstart + s.lookahead)
  }

  /** Inserts the string at strstart if its three bytes are there; zero, or a candidate for a match. */
  method InsertHere(s: DeflateState) returns (hashHead: nat)
    requires s.Valid(true) && s.lookahead > 0
    modifies s`insH, s`inserted, s.prev, s.head
    ensures Inserted(s)
    ensures hashHead != 0 ==>
              s.lookahead >= MIN_MATCH && s.strstart + 2 < s.window.Length
              && (s.strstart - hashHead <= s.MaxDist() ==> Candidate(s, hashHead))
    ensures s.lookahead >= MIN_MATCH && s.strstart <= s.window.Length - MIN_LOOKAHEAD ==> Asked(s, hashHead)
    ensures old(s.inserted) <= s.inserted && (s.lookahead >= MIN_MATCH && s.strstart > 0 ==> s.strstart in s.inserted)
  {
    hide Chained, Ready, Holds, Proper, Pow2, KeyAt, NoneBetween;
    hashHead := 0;
    DataIn(s, true);
    if s.lookahead >= MIN_MATCH {
      hashHead := s.InsertString(s.strstart, s.strstart, s.strstart + s.lookahead);
    }
  }

  /** A match found in the window is one in the data. */
  lemma MatchIs(s: DeflateState, len: nat)
    requires s.Data() && Found(s, len) && len <= s.lookahead
    ensures s.lookahead <= |s.input| && Repeats(s.input, |s.input| - s.lookahead, s.strstart - s.matchStart, len)
    ensures 0 < s.strstart - s.matchStart <= s.MaxDist()
  {
    WindowRepeats(s.window[..], s.input, s.strstart, s.lookahead, s.matchStart, len);
  }

  /** Moves on by count bytes, inserting every string on the way. */
  method InsertAll(s: DeflateState, count: nat, ghost top: nat)
    requires s.Shape() && s.strstart + count + 2 < top && s.Chains(s.strstart, s.strstart + 1, top)
             && s.KeyFor(s.strstart + 1, top)
    modifies s`strstart, s`insH, s`inserted, s.prev, s.head
    ensures s.strstart == old(s.strstart) + count && s.Chains(s.strstart, s.strstart + 1, top)
            && s.KeyFor(s.strstart + 1, top) && old(s.inserted) <= s.inserted
  {
    hide Chained, Ready, Proper, Pow2, KeyAt, NoneBetween;
    ghost var s0 := s.strstart;
    var left := count;
    while left > 0
      invariant 0 <= left <= count && s.strstart == s0 + (count - left) && old(s.inserted) <= s.inserted
      invariant s.Chains(s.strstart, s.strstart + 1, top) && s.KeyFor(s.strstart + 1, top)
      decreases left
    {
      s.strstart := s.strstart + 1;
      ChainsOn(s, s.strstart - 1, s.strstart, s.strstart, s.strstart, top);
      var head := s.InsertString(s.strstart, s.strstart, top);
      left := left - 1;
    }
  }

  /** Passes over a match of len bytes at strstart, which is inserted already. */
  method PassMatch(s: DeflateState, len: nat)
    requires Inserted(s) && MIN_MATCH <= len <= s.lookahead && len <= MAX_MATCH
             && s.strstart <= s.window.Length - MIN_LOOKAHEAD
    modifies s`strstart, s`lookahead, s`matchLength, s`insH, s`inserted, s.prev, s.head
    ensures s.Valid(true) && s.strstart == old(s.strstart) + len && s.lookahead == old(s.lookahead) - len
            && s.matchLength == 0 && old(s.inserted) <= s.inserted
  {
    hide Chained, Ready, Proper, Pow2, Holds, Update;
    ghost var top := s.strstart + s.lookahead;
    ghost var start := s.strstart;
    DataFacts(s);
    s.lookahead := s.lookahead - len;
    if len <= s.cfg.maxLazy && s.lookahead >= MIN_MATCH {
      InsertAll(s, len - 1, top);
      s.matchLength := 0;
      s.strstart := s.strstart + 1;
      ChainsOn(s, s.strstart - 1, s.strstart, s.strstart, s.strstart, top);
    } else {
      s.strstart := s.strstart + len;
      s.matchLength := 0;
      s.insH := s.window[s.strstart];
      StartKey(s.cfg.hashing, s.window[s.strstart], s.window[s.strstart + 1]);
      s.insH := Update(s.cfg.hashing, s.insH, s.window[s.strstart + 1]);
      ChainsOn(s, start, s.strstart, start + 1, s.strstart, top);
    }
  }

  /** Passes over one byte, inserted already if its string is complete. */
  method PassByte(s: DeflateState)
    requires Inserted(s)
    modifies s`strstart, s`lookahead
    ensures s.Valid(true) && s.strstart == old(s.strstart) + 1 && s.lookahead == old(s.lookahead) - 1
  {
    hide Chained, Ready, Proper, Pow2, Holds;
    ghost var top := s.strstart + s.lookahead;
    ghost var lim := if s.lookahead >= MIN_MATCH then s.strstart + 1 else s.strstart - s.insert;
    DataFacts(s);
    s.strstart := s.strstart + 1;
    s.lookahead := s.lookahead - 1;
    ChainsOn(s, s.strstart - 1, s.strstart, lim, s.strstart - s.insert, top);
  }

  /** Inserts the string at strstart and looks for a match. */
  method InsertAndFind(s: DeflateState, ghost total: seq<Byte>, ghost m: Marks)
    requires s.Valid(true) && s.lookahead > 0 && s.strstart <= s.window.Length - MIN_LOOKAHEAD
             && s.matchLength < MIN_MATCH && s.prevLength == MIN_MATCH - 1
    requires Traced(s, Fast, total, m) && Supplied(s, MIN_LOOKAHEAD, total, m)
    modifies s`insH, s`inserted, s`matchLength, s`matchStart, s.prev, s.head
    ensures Inserted(s)
    ensures s.matchLength >= MIN_MATCH ==>
              Found(s, s.matchLength) && s.matchLength <= s.lookahead && s.matchLength <= MAX_MATCH
    ensures Greedy(s.cfg, m, total, s.All(), |s.input| - s.lookahead, s.matchLength)
    ensures old(s.inserted) <= s.inserted && Noted(s, m)
  {
    hide DeflateState.Chains, DeflateState.KeyFor, DeflateState.Data, Candidate, Found, Proper, Pow2, Asked, AllChosen,
      Searched, Recalls, Begun, Supplied, Greedy, Noted;
    ghost var ins := s.inserted;
    var hashHead := InsertHere(s);
    PreparedNow(s, Fast, total, m, ins);
    NotedHere(s, total, m);
    if hashHead != 0 && s.strstart - hashHead <= s.MaxDist() {
      s.matchLength := LongestMatch(s, hashHead);
    }
    FastGreedy(s, total, m, hashHead);
  }

  /** Tallies the match found at strstart and passes over it. */
  method EmitMatch(s: DeflateState, ghost total: seq<Byte>) returns (bflush: bool)
    requires Inserted(s) && Ledger(s, |s.input| - s.lookahead, total) && s.Room()
             && s.strstart <= s.window.Length - MIN_LOOKAHEAD
    requires MIN_MATCH <= s.matchLength <= s.lookahead && s.matchLength <= MAX_MATCH && Found(s, s.matchLength)
    modifies s`tokens, s`strstart, s`lookahead, s`matchLength, s`insH, s`inserted, s.prev, s.head
    ensures s.Valid(true) && Ledger(s, |s.input| - s.lookahead, total) && (!bflush ==> s.Room())
    ensures s.lookahead < old(s.lookahead) && s.matchLength == 0
    ensures s.All() == old(s.All()) + [Match(old(s.strstart - s.matchStart), old(s.matchLength))]
    ensures Base(s) == old(Base(s)) && s.strstart > old(s.strstart) && old(s.inserted) <= s.inserted
  {
    hide DeflateState.Chains, DeflateState.KeyFor, DeflateState.Tallied, DeflateState.Reads, Repeats, Proper, Decode,
      TokensOf, Found, Holds;
    MatchIs(s, s.matchLength);
    bflush := TallyDist(s, s.strstart - s.matchStart, s.matchLength, |s.input| - s.lookahead);
    PassMatch(s, s.matchLength);
  }

  /** Tallies the byte at strstart and passes over it. */
  method EmitByte(s: DeflateState, ghost total: seq<Byte>) returns (bflush: bool)
    requires Inserted(s) && Ledger(s, |s.input| - s.lookahead, total) && s.Room()
    modifies s`tokens, s`strstart, s`lookahead
    ensures s.Valid(true) && Ledger(s, |s.input| - s.lookahead, total) && (!bflush ==> s.Room())
    ensures s.lookahead < old(s.lookahead) && Base(s) == old(Base(s)) && s.strstart > old(s.strstart)
    ensures |s.All()| == |old(s.All())| + 1 && s.All() == old(s.All()) + [s.All()[|old(s.All())|]]
            && s.All()[|old(s.All())|].Lit?
  {
    hide DeflateState.Chains, DeflateState.KeyFor, DeflateState.Tallied, DeflateState.Reads, Proper, Decode, TokensOf,
      Holds;
    NextByte(s, 0);
    bflush := TallyLit(s, s.window[s.strstart], |s.input| - s.lookahead);
    PassByte(s);
  }

  lemma FastTraced(s: DeflateState, total: seq<Byte>, m: Marks, ts: seq<Token>, tok: Token, n: nat, len: nat,
      ins: set<nat>, ins': set<nat>)
    requires AllChosen(Fast, s.cfg, m, total, ts) && (forall e :: e in m.ends ==> e <= |total|) && Begun(s, m)
    requires Greedy(s.cfg, m, total, ts, n, len) && n == |Decode(ts)| && Base(s) <= n < Base(s) + s.strstart
    requires if len < MIN_MATCH then tok.Lit? else tok.Match? && tok.len == len
    requires s.All() == ts + [tok] && ins <= ins' <= s.inserted && Recalls(ins, Base(s), n, Fast, m, ts)
    requires n > Base(s) && !Cut(m, n, MIN_MATCH) ==> n - Base(s) in ins'
    ensures Traced(s, Fast, total, m)
  {
    hide AllChosen, Greedy, Decode, Begun, Cut, Recalls;
    GreedyChosen(s.cfg, m, total, ts, tok, len);
    TracedOn(s, Fast, total, m, ts, tok, n, ins);
  }

  /** One step of deflate_fast: a match if the chain gives one, else a literal. */
  method FastStep(s: DeflateState, ghost total: seq<Byte>, ghost m: Marks) returns (full: bool)
    requires FastState(s, total) && 0 < s.lookahead && s.strstart <= s.window.Length - MIN_LOOKAHEAD
    requires Traced(s, Fast, total, m) && Supplied(s, MIN_LOOKAHEAD, total, m)
    modifies s, s.window, s.prev, s.head
    ensures FastState(s, total) && |s.nextIn| + s.lookahead < old(|s.nextIn| + s.lookahead)
    ensures Traced(s, Fast, total, m) && |s.blocks| >= |old(s.blocks)| + (if full then 1 else 0)
  {
    hide DeflateState.Valid, Inserted, DeflateState.Tallied, DeflateState.Reads, Found, Going, Decode, TokensOf,
      AllChosen, Greedy, Recalls, Supplied;
    GoingParts(s, true, total);
    TalliedLength(s, |s.input| - s.lookahead);
    ghost var ts, n, ins, base, start := s.All(), |s.input| - s.lookahead, s.inserted, Base(s), s.strstart;
    InsertAndFind(s, total, m);
    ghost var ins', len := s.inserted, s.matchLength;
    var bflush;
    if s.matchLength >= MIN_MATCH {
      bflush := EmitMatch(s, total);
    } else {
      bflush := EmitByte(s, total);
    }
    full := false;
    if bflush { full := FlushNow(s, false, true, total); }
    LedgerOf(s, true, total);
    BegunOn(s, m, base, start);
    FastTraced(s, total, m, ts, s.All()[|ts|], n, len, ins, ins');
  }

  lemma GoingParts(s: DeflateState, keyed: bool, total: seq<Byte>)
    requires Going(s, keyed, total)
    ensures s.Valid(keyed) && Ledger(s, |s.input| - s.lookahead, total) && s.Room()
  {
    DataIn(s, keyed);
  }

  /** Refills when fewer than need bytes are ahead; false if the caller has to wait for more input. */
  method Refill(s: DeflateState, need: nat, flush: Flush, ghost keyed: bool, ghost total: seq<Byte>,
      ghost strategy: Strategy, ghost m: Marks) returns (go: bool)
    requires Going(s, keyed, total) && need <= MIN_LOOKAHEAD && Traced(s, strategy, total, m)
             && (flush == NoFlush || |total| in m.ends)
    modifies s`strstart, s`lookahead, s`insert, s`matchStart, s`blockStart, s`highWater, s`input, s`nextIn, s`insH,
             s`inserted, s.window, s.prev, s.head
    ensures Going(s, keyed, total) && |s.nextIn| + s.lookahead == old(|s.nextIn| + s.lookahead)
    ensures go ==> s.strstart + need <= s.window.Length && Supplied(s, need, total, m)
    ensures go && s.lookahead < need ==> s.nextIn == [] && flush != NoFlush
    ensures !go ==> flush == NoFlush && s.nextIn == [] && s.lookahead < need
    ensures Traced(s, strategy, total, m)
  {
    hide DeflateState.Valid, Account, AllChosen, Recalls;
    DataIn(s, keyed);
    if s.lookahead < need {
      ghost var input0, n, gap := s.input, |s.input| - s.lookahead, s.blockStart - s.strstart;
      ghost var base, start, ins := Base(s), s.strstart, s.inserted;
      AccountIs(s, n, gap);
      hide DeflateState.Tallied, DeflateState.Span, Keeps;
      FillWindow(s, keyed);
      AccountMore(s, input0, s.input, n, gap);
      DataIn(s, keyed);
      AccountIs(s, n, gap);
      TracedKept(s, strategy, total, m, base, start, ins);
      if s.lookahead < need && flush == NoFlush { return false; }
    }
    go := true;
  }

  /** Why a call asks for more: its input is used up in a call that may leave some of it waiting, or it has handed
      blocks on and the output is full. */
  twostate predicate Starved(s: DeflateState, flush: Flush, need: nat)
    reads s
  {
    (flush == NoFlush && s.nextIn == [] && s.lookahead < need) || |s.blocks| > |old(s.blocks)|
  }

  /** deflate_fast. */
  method DeflateFast(s: DeflateState, flush: Flush, ghost total: seq<Byte>, ghost m: Marks) returns (answer: Answer)
    requires FastState(s, total) && Traced(s, Fast, total, m) && (flush == NoFlush || |total| in m.ends)
    modifies s, s.window, s.prev, s.head
    ensures FastState(s, total) && Outcome(s, flush, total, answer)
    ensures Traced(s, Fast, total, m) && (answer == NeedMore ==> Starved(s, flush, MIN_LOOKAHEAD))
    ensures flush == FinishFlush && answer == NeedMore ==> |s.nextIn| + s.lookahead < old(|s.nextIn| + s.lookahead)
  {
    hide Done, DeflateState.Valid, DeflateState.Tallied, DeflateState.Span, Traced;
    while true
      invariant FastState(s, total) && |s.nextIn| + s.lookahead <= old(|s.nextIn| + s.lookahead)
      invariant Traced(s, Fast, total, m) && |s.blocks| >= |old(s.blocks)|
      decreases |s.nextIn| + s.lookahead
    {
      var go := Refill(s, MIN_LOOKAHEAD, flush, true, total, Fast, m);
      if !go { return NeedMore; }
      if s.lookahead == 0 { break; }
      var full := FastStep(s, total, m);
      if full { return NeedMore; }
    }
    DataIn(s, true);
    answer := EndKeyed(s, flush, total, Fast, m);
  }

  /** The end of a call of the strategies that keep the running key. */
  method EndKeyed(s: DeflateState, flush: Flush, ghost total: seq<Byte>, ghost strategy: Strategy, ghost m: Marks)
    returns (answer: Answer)
    requires s.Valid(true) && Ledger(s, |s.input|, total) && s.lookahead == 0 && s.nextIn == []
             && flush != NoFlush && Traced(s, strategy, total, m)
    modifies s`insert, s`tokens, s`blocks, s`blockStart
    ensures Going(s, true, total) && Outcome(s, flush, total, answer) && Done(s, total) && Traced(s, strategy, total, m)
    ensures flush == FinishFlush ==> answer != NeedMore
    ensures |s.blocks| >= |old(s.blocks)| && (answer == NeedMore ==> |s.blocks| > |old(s.blocks)|)
  {
    hide DeflateState.Valid, Ledger, Going, Done, AllChosen, Recalls, Begun;
    SetInsert(s, total);
    answer := EndBlocks(s, flush, true, total);
  }

  /** The last two bytes of the data are left to insert when more has come. */
  method SetInsert(s: DeflateState, ghost total: seq<Byte>)
    requires s.Valid(true) && Ledger(s, |s.input|, total) && s.lookahead == 0
    modifies s`insert
    ensures s.Valid(true) && Ledger(s, |s.input|, total)
  {
    hide DeflateState.Chains, DeflateState.Tallied, DeflateState.Span, Holds, Ready;
    var n := if s.strstart < MIN_MATCH - 1 then s.strstart else MIN_MATCH - 1;
    ChainsTight(s, s.strstart, s.strstart - s.insert, s.strstart - n, s.strstart);
    s.insert := n;
  }

  // ---- lazy matching ----

  /** A match at the previous position, not yet emitted. It is a fact about the data: the
      window may slide before the match is emitted, even so far that its start has left it. */
  ghost predicate Pending(s: DeflateState, length: nat, start: int)
    reads s`strstart, s`lookahead, s`input
  {
    var n := |s.input| - s.lookahead - 1;
    length >= MIN_MATCH ==>
      && length <= MAX_MATCH && length <= s.lookahead + 1 && 0 <= n && 1 <= s.strstart - 1 - start <= s.MaxDist()
      && Repeats(s.input, n, s.strstart - 1 - start, length)
  }

  /** As Ledger, with the byte before strstart still to be tallied if one is waiting. */
  ghost predicate SlowLedger(s: DeflateState, total: seq<Byte>)
    reads s
  {
    var n := |s.input| - s.lookahead - (if s.matchAvailable then 1 else 0);
    && s.strstart + s.lookahead <= |s.input| && 0 <= n && s.Tallied(n) && s.Span() && s.Reads(total)
       && s.cfg.litBufsize >= 128
    && (s.matchAvailable ==> s.strstart > 0)
  }

  ghost predicate SlowState(s: DeflateState, total: seq<Byte>)
    reads s, s.window, s.prev, s.head
  {
    && s.Valid(true) && SlowLedger(s, total) && s.Room()
    && MIN_MATCH - 1 <= s.matchLength <= MAX_MATCH && (s.matchLength >= MIN_MATCH ==> s.matchAvailable)
       && Pending(s, s.matchLength, s.matchStart)
  }

  /** As Traced, with what has been found out about the byte that waits. */
  ghost predicate SlowTraced(s: DeflateState, total: seq<Byte>, m: Marks)
    reads s
  {
    && Traced(s, Slow, total, m)
    && (s.matchAvailable ==> |s.input| > s.lookahead
                             && Judged(s.cfg, m, total, |s.input| - s.lookahead - 1, s.matchLength))
  }

  /** Follows the chain, if the previous match is not good enough, and drops a match too short to be worth its bits. */
  method SlowSearch(s: DeflateState, hashHead: nat) returns (ghost raw: nat)
    requires s.lookahead >= MIN_MATCH ==> Asked(s, hashHead)
    requires s.lookahead < MIN_MATCH ==> hashHead == 0
    requires s.strstart <= s.window.Length - MIN_LOOKAHEAD && (Near(s, hashHead) ==> Candidate(s, hashHead))
    requires MIN_MATCH - 1 <= s.prevLength <= MAX_MATCH
    modifies s`matchLength, s`matchStart
    ensures MIN_MATCH - 1 <= s.matchLength <= MAX_MATCH
    ensures s.matchLength >= MIN_MATCH && s.matchLength > s.prevLength ==>
              Found(s, s.matchLength) && s.matchLength <= s.lookahead
    ensures if Near(s, hashHead) && s.prevLength < s.cfg.maxLazy
            then Searched(s, hashHead, raw)
                 && (s.matchLength == raw || (s.matchLength == MIN_MATCH - 1 && raw <= Weak(s.cfg) && NotWorth(s, raw)))
                 && (raw > s.prevLength ==> Nearest(s, hashHead, raw))
            else s.matchLength == MIN_MATCH - 1
  {
    hide Nearest, DeflateState.Chains, Candidate, Found, Proper, Pow2, NoneBetween, Searched, DeflateState.Data;
    s.matchLength := MIN_MATCH - 1;
    raw := 0;
    if hashHead != 0 && s.prevLength < s.cfg.maxLazy && s.strstart - hashHead <= s.MaxDist() {
      s.matchLength := LongestMatch(s, hashHead);
      raw := s.matchLength;
      if s.matchLength <= 5 && (s.cfg.filtered || (s.matchLength == MIN_MATCH && s.strstart - s.matchStart > TOO_FAR)) {
        s.matchLength := MIN_MATCH - 1;
      }
    }
  }

  /** Keeps the previous match aside and looks for a better one here. */
  method SlowFind(s: DeflateState, ghost total: seq<Byte>, ghost m: Marks)
    requires s.Valid(true) && s.lookahead > 0 && s.strstart <= s.window.Length - MIN_LOOKAHEAD
             && MIN_MATCH - 1 <= s.matchLength <= MAX_MATCH
    requires Traced(s, Slow, total, m) && Supplied(s, MIN_LOOKAHEAD, total, m)
    modifies s`insH, s`inserted, s`matchLength, s`matchStart, s`prevLength, s`prevMatch, s.prev, s.head
    ensures Inserted(s) && s.prevLength == old(s.matchLength) && s.prevMatch == old(s.matchStart)
    ensures MIN_MATCH - 1 <= s.matchLength <= MAX_MATCH
    ensures s.matchLength >= MIN_MATCH && s.matchLength > s.prevLength ==>
              Found(s, s.matchLength) && s.matchLength <= s.lookahead
    ensures Looked(s.cfg, m, total, |s.input| - s.lookahead, s.prevLength, s.matchLength)
    ensures old(s.inserted) <= s.inserted && Noted(s, m)
  {
    hide DeflateState.Chains, DeflateState.KeyFor, DeflateState.Data, Candidate, Found, Proper, Pow2, Asked, AllChosen,
      Searched, Recalls, Begun, Supplied, Looked, Noted;
    ghost var ins := s.inserted;
    var hashHead := InsertHere(s);
    PreparedNow(s, Slow, total, m, ins);
    NotedHere(s, total, m);
    s.prevLength, s.prevMatch := s.matchLength, s.matchStart;
    ghost var raw := SlowSearch(s, hashHead);
    SlowLooked(s, total, m, hashHead, raw);
  }

  /** Moves on by count bytes, inserting the strings whose three bytes are all there. */
  method InsertSome(s: DeflateState, count: nat, maxInsert: int, ghost top: nat)
    requires s.Shape() && maxInsert == top - MIN_MATCH && s.Chains(s.strstart, s.strstart + 1, top)
             && s.KeyFor(s.strstart + 1, top) && top <= s.window.Length
    modifies s`strstart, s`insH, s`inserted, s.prev, s.head
    ensures s.strstart == old(s.strstart) + count && s.Chains(s.strstart, s.strstart + 1, top)
            && s.KeyFor(s.strstart + 1, top)
    ensures old(s.inserted) <= s.inserted
            && forall v :: old(s.strstart) < v <= s.strstart && v <= maxInsert ==> v in s.inserted
  {
    hide Chained, Ready, Proper, Pow2, KeyAt, NoneBetween;
    ghost var s0 := s.strstart;
    var left := count;
    while left > 0
      invariant 0 <= left <= count && s.strstart == s0 + (count - left) && old(s.inserted) <= s.inserted
      invariant forall v :: s0 < v <= s.strstart && v <= maxInsert ==> v in s.inserted
      invariant s.Chains(s.strstart, s.strstart + 1, top) && s.KeyFor(s.strstart + 1, top)
      decreases left
    {
      s.strstart := s.strstart + 1;
      ChainsOn(s, s.strstart - 1, s.strstart, s.strstart, s.strstart, top);
      if s.strstart <= maxInsert {
        var head := s.InsertString(s.strstart, s.strstart, top);
      } else {
        ChainsOn(s, s.strstart, s.strstart, s.strstart, s.strstart + 1, top);
      }
      left := left - 1;
    }
  }

  /** Passes over the rest of a match of len bytes that began one byte back. */
  method PassPrevious(s: DeflateState, len: nat)
    requires Inserted(s) && MIN_MATCH <= len <= s.lookahead + 1
    modifies s`strstart, s`lookahead, s`insH, s`inserted, s.prev, s.head
    ensures s.Valid(true) && s.strstart == old(s.strstart) + (len - 1) && s.lookahead == old(s.lookahead) - (len - 1)
    ensures old(s.inserted) <= s.inserted
            && forall v :: old(s.strstart) < v < s.strstart && v + MIN_MATCH <= old(s.strstart + s.lookahead) ==>
                             v in s.inserted
  {
    hide Chained, Ready, Proper, Pow2, Holds;
    ghost var top := s.strstart + s.lookahead;
    var maxInsert := s.strstart + s.lookahead - MIN_MATCH;
    DataFacts(s);
    ChainsOn(s, s.strstart, s.strstart, if s.lookahead >= MIN_MATCH
             then s.strstart + 1 else s.strstart - s.insert, s.strstart + 1, top);
    s.lookahead := s.lookahead - (len - 1);
    InsertSome(s, len - 2, maxInsert, top);
    s.strstart := s.strstart + 1;
    ChainsOn(s, s.strstart - 1, s.strstart, s.strstart, s.strstart, top);
  }

  /** Emits the match of the previous step. */
  method EmitPrevious(s: DeflateState, ghost total: seq<Byte>) returns (bflush: bool)
    requires Inserted(s) && SlowLedger(s, total) && s.Room() && s.matchAvailable && s.prevLength >= MIN_MATCH
             && Pending(s, s.prevLength, s.prevMatch)
    modifies s`tokens, s`strstart, s`lookahead, s`matchLength, s`matchAvailable, s`insH, s`inserted, s.prev, s.head
    ensures s.Valid(true) && Ledger(s, |s.input| - s.lookahead, total) && (!bflush ==> s.Room())
    ensures s.lookahead < old(s.lookahead) && !s.matchAvailable && s.matchLength == MIN_MATCH - 1
    ensures s.All() == old(s.All()) + [Match(old(s.strstart - 1 - s.prevMatch), old(s.prevLength))]
    ensures Base(s) == old(Base(s)) && s.strstart == old(s.strstart) + old(s.prevLength) - 1
    ensures old(s.inserted) <= s.inserted
            && forall v :: old(s.strstart) < v < s.strstart && v + MIN_MATCH <= old(s.strstart + s.lookahead) ==>
                             v in s.inserted
  {
    hide Inserted, DeflateState.Valid, DeflateState.Tallied, DeflateState.Reads, Repeats, Decode, TokensOf;
    bflush := TallyDist(s, s.strstart - 1 - s.prevMatch, s.prevLength, |s.input| - s.lookahead - 1);
    PassPrevious(s, s.prevLength);
    s.matchAvailable := false;
    s.matchLength := MIN_MATCH - 1;
  }

  /** Emits the byte before strstart, which was waiting for a match that did not come. */
  method EmitWaiting(s: DeflateState, ghost total: seq<Byte>) returns (full: bool)
    requires Inserted(s) && SlowLedger(s, total) && s.Room() && s.matchAvailable
    modifies s`tokens, s`blocks, s`blockStart
    ensures Inserted(s) && Ledger(s, |s.input| - s.lookahead, total) && s.Room()
    ensures |s.blocks| >= |old(s.blocks)| + (if full then 1 else 0)
    ensures |s.All()| == |old(s.All())| + 1 && s.All() == old(s.All()) + [s.All()[|old(s.All())|]]
            && s.All()[|old(s.All())|].Lit?
  {
    hide DeflateState.Chains, DeflateState.KeyFor, DeflateState.Tallied, DeflateState.Reads, Decode, TokensOf, Holds;
    NextByte(s, 1);
    var bflush := TallyLit(s, s.window[s.strstart - 1], |s.input| - s.lookahead - 1);
    full := false;
    if bflush { full := FlushBlock(s, false); }
  }

  /** Moves on with the byte at strstart waiting, and a match there kept for comparison. */
  method Wait(s: DeflateState, ghost total: seq<Byte>)
    requires Inserted(s) && Ledger(s, |s.input| - s.lookahead, total) && s.Room()
             && MIN_MATCH - 1 <= s.matchLength <= MAX_MATCH
    requires s.matchLength >= MIN_MATCH ==> Found(s, s.matchLength) && s.matchLength <= s.lookahead
    modifies s`strstart, s`lookahead, s`matchAvailable
    ensures SlowState(s, total) && s.lookahead == old(s.lookahead) - 1 && s.strstart == old(s.strstart) + 1
    ensures s.matchAvailable
  {
    hide Found, DeflateState.Tallied, DeflateState.Reads, Repeats, Decode, TokensOf, Holds, DeflateState.Chains,
      DeflateState.KeyFor;
    if s.matchLength >= MIN_MATCH { MatchIs(s, s.matchLength); }
    PassByte(s);
    s.matchAvailable := true;
  }

  /** What a step of deflate_slow starts from: tokens, position, and strings inserted. */
  datatype Before = Before(ts: seq<Token>, n: nat, ins: set<nat>)

  ghost predicate Recorded(s: DeflateState, total: seq<Byte>, m: Marks, b: Before)
    reads s`input, s`lookahead, s`strstart, s`inserted
  {
    && AllChosen(Slow, s.cfg, m, total, b.ts) && (forall e :: e in m.ends ==> e <= |total|) && Begun(s, m)
    && b.ins <= s.inserted && Recalls(b.ins, Base(s), b.n, Slow, m, b.ts)
  }

  /** A step has looked for a match and is to decide what to do with it. */
  ghost predicate Deciding(s: DeflateState, total: seq<Byte>, m: Marks, b: Before)
    reads s
  {
    && Recorded(s, total, m, b) && s.All() == b.ts && b.n == |s.input| - s.lookahead
    && Noted(s, m) && Supplied(s, MIN_LOOKAHEAD, total, m)
    && Looked(s.cfg, m, total, b.n, s.prevLength, s.matchLength)
    && (s.matchAvailable ==> b.n > 0 && |Decode(b.ts)| == b.n - 1 && Judged(s.cfg, m, total, b.n - 1, s.prevLength))
  }

  lemma SlowOn(s: DeflateState, total: seq<Byte>, m: Marks, b: Before, tok: Token)
    requires Recorded(s, total, m, b) && Remembers(s, Slow, m, b.n)
    requires s.All() == b.ts + [tok] && Chosen(Slow, s.cfg, m, total, b.ts, tok)
    ensures Traced(s, Slow, total, m)
  {
    hide AllChosen, Chosen, Begun, Cut, Recalls, Remembers;
    TracedOn(s, Slow, total, m, b.ts, tok, b.n, b.ins);
  }

  /** Emits the match of the previous step and hands the block on if it is full. */
  method TakePrevious(s: DeflateState, ghost total: seq<Byte>, ghost m: Marks, ghost b: Before) returns (full: bool)
    requires Inserted(s) && SlowLedger(s, total) && s.Room() && s.matchAvailable
             && MIN_MATCH <= s.prevLength <= MAX_MATCH && Pending(s, s.prevLength, s.prevMatch)
    requires s.matchLength <= s.prevLength && Deciding(s, total, m, b)
    modifies s`tokens, s`blocks, s`blockStart, s`strstart, s`lookahead, s`matchLength, s`matchAvailable, s`insH,
             s`inserted, s.prev, s.head
    ensures SlowState(s, total) && s.lookahead < old(s.lookahead) && SlowTraced(s, total, m)
    ensures |s.blocks| >= |old(s.blocks)| + (if full then 1 else 0)
  {
    hide Inserted, DeflateState.Valid, DeflateState.Tallied, DeflateState.Reads, Repeats, Decode, TokensOf, AllChosen,
      Recalls, Looked, Judged, Chosen, Cut;
    ghost var base, start := Base(s), s.strstart;
    PreviousChosen(s.cfg, m, total, b.ts, s.strstart - 1 - s.prevMatch, s.prevLength, s.matchLength);
    var bflush := EmitPrevious(s, total);
    PreviousRemembered(s, total, m, b.n, start, old(s.lookahead));
    full := false;
    if bflush { full := FlushNow(s, false, true, total); }
    BegunOn(s, m, base, start);
    SlowOn(s, total, m, b, s.All()[|b.ts|]);
  }

  lemma PreviousRemembered(s: DeflateState, total: seq<Byte>, m: Marks, n: nat, start: nat, ahead: nat)
    requires Base(s) + start == n && start < s.strstart <= start + MAX_MATCH && s.strstart <= start + ahead
    requires ahead < MIN_LOOKAHEAD ==> n + ahead == |total| && |total| in m.ends
    requires start > 0 && !Cut(m, n, MIN_MATCH) ==> start in s.inserted
    requires forall v :: start < v < s.strstart && v + MIN_MATCH <= start + ahead ==> v in s.inserted
    ensures Remembers(s, Slow, m, n)
  {
    hide Cut;
    forall t: nat | n < t < Base(s) + s.strstart && !Cut(m, t, MIN_MATCH) ensures t - Base(s) in s.inserted {
      var v: nat := t - Base(s);
      if v + MIN_MATCH > start + ahead { CutHere(m, |total|, t, MIN_MATCH); }
    }
  }

  /** Emits the byte that waits, and lets the one at strstart wait. */
  method TakeWaiting(s: DeflateState, ghost total: seq<Byte>, ghost m: Marks, ghost b: Before) returns (full: bool)
    requires Inserted(s) && SlowLedger(s, total) && s.Room() && s.matchAvailable
             && MIN_MATCH - 1 <= s.prevLength && MIN_MATCH - 1 <= s.matchLength <= MAX_MATCH
    requires s.matchLength >= MIN_MATCH && s.matchLength > s.prevLength ==>
               Found(s, s.matchLength) && s.matchLength <= s.lookahead
    requires s.prevLength < MIN_MATCH || s.matchLength > s.prevLength
    requires Deciding(s, total, m, b)
    modifies s`tokens, s`blocks, s`blockStart, s`strstart, s`lookahead, s`matchAvailable
    ensures SlowState(s, total) && s.lookahead < old(s.lookahead) && SlowTraced(s, total, m)
    ensures |s.blocks| >= |old(s.blocks)| + (if full then 1 else 0)
  {
    hide Inserted, DeflateState.Valid, DeflateState.Tallied, DeflateState.Reads, Repeats, Decode, TokensOf, AllChosen,
      Recalls, Looked, Judged, Chosen, Found, Cut;
    ghost var base, start := Base(s), s.strstart;
    WaitingHere(s, total, m, b);
    LookedJudged(s.cfg, m, total, b.n, s.prevLength, s.matchLength);
    full := EmitWaiting(s, total);
    Wait(s, total);
    BegunOn(s, m, base, start);
    SlowOn(s, total, m, b, s.All()[|b.ts|]);
  }

  /** Whatever the byte is, it is right to code it by itself. */
  lemma WaitingHere(s: DeflateState, total: seq<Byte>, m: Marks, b: Before)
    requires Inserted(s) && Deciding(s, total, m, b) && s.matchAvailable && s.matchLength <= MAX_MATCH
    requires s.prevLength >= MIN_MATCH ==>
               s.matchLength > s.prevLength && Found(s, s.matchLength) && s.matchLength <= s.lookahead
    ensures forall c :: Chosen(Slow, s.cfg, m, total, b.ts, Lit(c))
  {
    hide Decode, AllChosen, Recalls, Looked, Judged, Chosen, Found, Cut, DeflateState.Chains, DeflateState.KeyFor;
    if s.prevLength >= MIN_MATCH {
      MatchIs(s, s.matchLength);
      var dist: nat := s.strstart - s.matchStart;
      assert s.input + total[|s.input|..] == total;
      RepeatsMore(s.input, total[|s.input|..], b.n, dist, s.matchLength);
      forall c ensures Chosen(Slow, s.cfg, m, total, b.ts, Lit(c)) {
        WaitingChosen(s.cfg, m, total, b.ts, c, s.prevLength, dist, s.matchLength);
      }
    } else {
      forall c ensures Chosen(Slow, s.cfg, m, total, b.ts, Lit(c)) {
        WaitingChosen(s.cfg, m, total, b.ts, c, s.prevLength, 0, 0);
      }
    }
  }

  /** Lets the byte at strstart wait where none did. */
  method TakeNone(s: DeflateState, ghost total: seq<Byte>, ghost m: Marks, ghost b: Before)
    requires Inserted(s) && SlowLedger(s, total) && s.Room() && !s.matchAvailable
             && s.prevLength == MIN_MATCH - 1 <= s.matchLength <= MAX_MATCH
    requires s.matchLength >= MIN_MATCH ==> Found(s, s.matchLength) && s.matchLength <= s.lookahead
    requires Deciding(s, total, m, b)
    modifies s`strstart, s`lookahead, s`matchAvailable
    ensures SlowState(s, total) && s.lookahead < old(s.lookahead) && SlowTraced(s, total, m)
  {
    hide Inserted, DeflateState.Valid, DeflateState.Tallied, DeflateState.Reads, Repeats, Decode, TokensOf, AllChosen,
      Looked, Judged, Chosen, Found, Cut;
    ghost var base, start := Base(s), s.strstart;
    LookedJudged(s.cfg, m, total, b.n, s.prevLength, s.matchLength);
    Wait(s, total);
    BegunOn(s, m, base, start);
  }

  /** One step of deflate_slow. */
  method SlowStep(s: DeflateState, ghost total: seq<Byte>, ghost m: Marks) returns (full: bool)
    requires SlowState(s, total) && 0 < s.lookahead && s.strstart <= s.window.Length - MIN_LOOKAHEAD
    requires SlowTraced(s, total, m) && Supplied(s, MIN_LOOKAHEAD, total, m)
    modifies s, s.window, s.prev, s.head
    ensures SlowState(s, total) && |s.nextIn| + s.lookahead < old(|s.nextIn| + s.lookahead)
    ensures SlowTraced(s, total, m) && |s.blocks| >= |old(s.blocks)| + (if full then 1 else 0)
  {
    hide DeflateState.Valid, Inserted, DeflateState.Reads, Found, Repeats, Decode, TokensOf, AllChosen, Recalls, Looked,
      Judged, Noted, Supplied, AllEncodable, RawsAgree;
    ghost var b := Before(s.All(), |s.input| - s.lookahead, s.inserted);
    SlowFind(s, total, m);
    full := false;
    if s.prevLength >= MIN_MATCH && s.matchLength <= s.prevLength {
      full := TakePrevious(s, total, m, b);
    } else if s.matchAvailable {
      full := TakeWaiting(s, total, m, b);
    } else {
      TakeNone(s, total, m, b);
    }
  }

  lemma PendingMore(s: DeflateState, input0: seq<Byte>, lookahead0: nat, dist: int)
    requires input0 <= s.input && |s.input| - s.lookahead == |input0| - lookahead0 && lookahead0 <= s.lookahead
             && dist == s.strstart - 1 - s.matchStart
    requires s.matchLength >= MIN_MATCH ==> (
      && s.matchLength <= MAX_MATCH && s.matchLength <= lookahead0 + 1 && 0 <= |input0| - lookahead0 - 1
         && 1 <= dist <= s.MaxDist()
      && Repeats(input0, |input0| - lookahead0 - 1, dist, s.matchLength))
    ensures Pending(s, s.matchLength, s.matchStart)
  {
    if s.matchLength >= MIN_MATCH {
      assert s.input == input0 + s.input[|input0|..];
      RepeatsMore(input0, s.input[|input0|..], |input0| - lookahead0 - 1, dist, s.matchLength);
    }
  }

  lemma SlowAccount(s: DeflateState, total: seq<Byte>, p: nat)
    requires s.Valid(true) && SlowLedger(s, total) && p == if s.matchAvailable then 1 else 0
    ensures Account(s, s.input, |s.input| - s.lookahead - p, s.blockStart - s.strstart + p)
    ensures s.Reads(total) && s.cfg.litBufsize >= 128 && |s.input| - s.lookahead - p >= 0
            && (s.matchAvailable ==> s.strstart > 0)
  {
    hide DeflateState.Valid, Account, DeflateState.Reads;
    AccountIs(s, |s.input| - s.lookahead - p, s.blockStart - s.strstart + p);
  }

  lemma SlowLedgerOf(s: DeflateState, total: seq<Byte>, p: nat)
    requires s.Valid(true) && s.Reads(total) && s.cfg.litBufsize >= 128 && p == if s.matchAvailable then 1 else 0
    requires |s.input| - s.lookahead - p >= 0 && (s.matchAvailable ==> s.strstart > 0)
    requires Account(s, s.input, |s.input| - s.lookahead - p, s.blockStart - s.strstart + p)
    ensures SlowLedger(s, total)
  {
    DataIn(s, true);
    hide DeflateState.Valid, Account, DeflateState.Reads;
    AccountIs(s, |s.input| - s.lookahead - p, s.blockStart - s.strstart + p);
  }

  /** As Refill, while a byte or a match may be waiting. */
  method FillSlow(s: DeflateState, ghost total: seq<Byte>)
    requires SlowState(s, total) && s.lookahead < MIN_LOOKAHEAD
    modifies s`strstart, s`lookahead, s`insert, s`matchStart, s`blockStart, s`highWater, s`input, s`nextIn, s`insH,
             s`inserted, s.window, s.prev, s.head
    ensures SlowState(s, total) && Kept(s) && s.strstart + MIN_LOOKAHEAD <= s.window.Length
    ensures s.lookahead >= MIN_LOOKAHEAD || s.nextIn == []
  {
    hide DeflateState.Valid, Account, Repeats, SlowLedger, Keeps;
    ghost var p := if s.matchAvailable then 1 else 0;
    ghost var input0, n, gap := s.input, |s.input| - s.lookahead - p, s.blockStart - s.strstart + p;
    ghost var lookahead0, dist := s.lookahead, s.strstart - 1 - s.matchStart;
    SlowAccount(s, total, p);
    FillWindow(s, true);
    AccountMore(s, input0, s.input, n, gap);
    PendingMore(s, input0, lookahead0, dist);
    SlowLedgerOf(s, total, p);
  }

  method RefillSlow(s: DeflateState, flush: Flush, ghost total: seq<Byte>, ghost m: Marks) returns (go: bool)
    requires SlowState(s, total) && SlowTraced(s, total, m) && (flush == NoFlush || |total| in m.ends)
    modifies s`strstart, s`lookahead, s`insert, s`matchStart, s`blockStart, s`highWater, s`input, s`nextIn, s`insH,
             s`inserted, s.window, s.prev, s.head
    ensures SlowState(s, total) && |s.nextIn| + s.lookahead == old(|s.nextIn| + s.lookahead)
    ensures go ==> s.strstart + MIN_LOOKAHEAD <= s.window.Length && Supplied(s, MIN_LOOKAHEAD, total, m)
    ensures go && s.lookahead < MIN_LOOKAHEAD ==> s.nextIn == [] && flush != NoFlush
    ensures !go ==> flush == NoFlush && s.nextIn == [] && s.lookahead < MIN_LOOKAHEAD
    ensures SlowTraced(s, total, m)
  {
    hide DeflateState.Valid, Repeats, AllChosen, Recalls, Judged, DeflateState.Tallied, DeflateState.Span, Keeps,
      Pending;
    DataIn(s, true);
    if s.lookahead < MIN_LOOKAHEAD {
      ghost var base, start, ins := Base(s), s.strstart, s.inserted;
      FillSlow(s, total);
      DataIn(s, true);
      TracedKept(s, Slow, total, m, base, start, ins);
      if s.lookahead < MIN_LOOKAHEAD && flush == NoFlush { return false; }
    }
    go := true;
  }

  /** deflate_slow. */
  method DeflateSlow(s: DeflateState, flush: Flush, ghost total: seq<Byte>, ghost m: Marks) returns (answer: Answer)
    requires SlowState(s, total) && SlowTraced(s, total, m) && (flush == NoFlush || |total| in m.ends)
    modifies s, s.window, s.prev, s.head
    ensures SlowState(s, total) && Outcome(s, flush, total, answer)
            && (answer == BlockDone ==> !s.matchAvailable && s.matchLength < MIN_MATCH)
    ensures SlowTraced(s, total, m) && (answer == NeedMore ==> Starved(s, flush, MIN_LOOKAHEAD))
    ensures flush == FinishFlush && answer == NeedMore ==> |s.nextIn| + s.lookahead < old(|s.nextIn| + s.lookahead)
  {
    hide DeflateState.Valid, SlowLedger, Pending, Going, Done, Ledger, Traced, Judged;
    while true
      invariant SlowState(s, total) && |s.nextIn| + s.lookahead <= old(|s.nextIn| + s.lookahead)
      invariant SlowTraced(s, total, m) && |s.blocks| >= |old(s.blocks)|
      decreases |s.nextIn| + s.lookahead
    {
      var go := RefillSlow(s, flush, total, m);
      if !go { return NeedMore; }
      if s.lookahead == 0 { break; }
      var full := SlowStep(s, total, m);
      if full { return NeedMore; }
    }
    TallyLast(s, total, m);
    answer := EndKeyed(s, flush, total, Slow, m);
    SlowAgain(s, total);
  }

  /** The last byte waits for nothing any more. */
  method TallyLast(s: DeflateState, ghost total: seq<Byte>, ghost m: Marks)
    requires SlowState(s, total) && s.lookahead == 0 && SlowTraced(s, total, m)
    modifies s`tokens, s`matchAvailable
    ensures s.Valid(true) && Ledger(s, |s.input|, total) && !s.matchAvailable && s.matchLength == MIN_MATCH - 1
    ensures Traced(s, Slow, total, m)
  {
    hide DeflateState.Chains, DeflateState.KeyFor, Decode, TokensOf, AllChosen, Recalls, Begun, Judged, Cut, Chosen;
    DataIn(s, true);
    if s.matchAvailable {
      ghost var ts := s.All();
      NextByte(s, 1);
      TalliedLength(s, |s.input| - 1);
      hide Holds, DeflateState.Tallied;
      var c := s.window[s.strstart - 1];
      WaitingChosen(s.cfg, m, total, ts, c, s.matchLength, 0, 0);
      var bflush := TallyLit(s, c, |s.input| - 1);
      s.matchAvailable := false;
      TracedOn(s, Slow, total, m, ts, Lit(c), |s.input|, s.inserted);
    }
  }

  lemma SlowAgain(s: DeflateState, total: seq<Byte>)
    requires Going(s, true, total) && !s.matchAvailable && s.matchLength == MIN_MATCH - 1
    ensures SlowState(s, total)
  {
    DataIn(s, true);
  }

  // ---- runs and literals only ----

  /** How far the byte before strstart repeats, eight bytes to a round; zero if not three times. */
  method RunAhead(window: array<Byte>, strstart: nat) returns (len: nat)
    requires 0 < strstart && strstart + MAX_MATCH < window.Length
    ensures len == 0 || (MIN_MATCH <= len <= MAX_MATCH && SameRun(window[..], strstart - 1, strstart, len))
    ensures NoLongerRun(window[..], strstart - 1, strstart, if len == 0 then MIN_MATCH - 1 else len)
  {
    var b := window[strstart - 1];
    if window[strstart] != b || window[strstart + 1] != b || window[strstart + 2] != b {
      ShortRun(window[..], strstart);
      return 0;
    }
    var i := 2;
    while true
      invariant 2 <= i < MAX_MATCH && i % 8 == 2 && forall j :: strstart - 1 <= j <= strstart + i ==> window[j] == b
      decreases MAX_MATCH - i
    {
      ghost var i0 := i;
      var k := 0;
      while k < 8
        invariant 0 <= k <= 8 && i == i0 + k
        invariant forall j :: strstart - 1 <= j <= strstart + i ==> window[j] == b
      {
        i, k := i + 1, k + 1;
        if window[strstart + i] != b {
          RunStops(window[..], strstart - 1, strstart, i);
          return i;
        }
      }
      if i >= MAX_MATCH { break; }
    }
    len := i;
  }

  lemma RunStops(w: seq<Byte>, m: nat, at: nat, run: nat)
    requires m <= at && at + run < |w| && w[at + run] != w[m + run]
    ensures NoLongerRun(w, m, at, run)
  {
    forall k: nat | k <= MAX_MATCH && SameRun(w, m, at, k) ensures k <= run { RunEnds(w, m, at, run, k); }
  }

  lemma ShortRun(w: seq<Byte>, at: nat)
    requires 0 < at && at + 2 < |w| && !(w[at - 1] == w[at] == w[at + 1] == w[at + 2])
    ensures NoLongerRun(w, at - 1, at, 2)
  {
    hide SameRun;
    RunStops(w, at - 1, at, if w[at - 1] != w[at] then 0 else if w[at] != w[at + 1] then 1 else 2);
  }

  /** Passes over len bytes without inserting anything. */
  method PassPlain(s: DeflateState, len: nat)
    requires s.Valid(false) && len <= s.lookahead
    modifies s`strstart, s`lookahead
    ensures s.Valid(false) && s.strstart == old(s.strstart) + len && s.lookahead == old(s.lookahead) - len
  {
    hide Chained, Ready, Proper, Pow2, Holds;
    ghost var top, lim, start := s.strstart + s.lookahead, s.strstart - s.insert, s.strstart;
    s.strstart := s.strstart + len;
    s.lookahead := s.lookahead - len;
    ChainsOn(s, start, s.strstart, lim, s.strstart - s.insert, top);
  }

  method EmitPlain(s: DeflateState, ghost total: seq<Byte>) returns (bflush: bool)
    requires s.Valid(false) && Ledger(s, |s.input| - s.lookahead, total) && s.Room() && s.lookahead > 0
    modifies s`tokens, s`strstart, s`lookahead
    ensures s.Valid(false) && Ledger(s, |s.input| - s.lookahead, total) && (!bflush ==> s.Room())
            && s.lookahead < old(s.lookahead)
    ensures |s.All()| == |old(s.All())| + 1 && s.All() == old(s.All()) + [s.All()[|old(s.All())|]]
            && s.All()[|old(s.All())|].Lit?
    ensures Base(s) == old(Base(s)) && s.strstart > old(s.strstart)
  {
    hide DeflateState.Chains, DeflateState.KeyFor, DeflateState.Tallied, DeflateState.Reads, Proper, Decode, TokensOf,
      Holds;
    NextByte(s, 0);
    bflush := TallyLit(s, s.window[s.strstart], |s.input| - s.lookahead);
    PassPlain(s, 1);
  }

  method EmitRun(s: DeflateState, ghost total: seq<Byte>) returns (bflush: bool)
    requires s.Valid(false) && Ledger(s, |s.input| - s.lookahead, total) && s.Room()
    requires MIN_MATCH <= s.matchLength <= s.lookahead && s.matchLength <= MAX_MATCH && 0 < s.strstart
             && SameRun(s.window[..], s.strstart - 1, s.strstart, s.matchLength)
    modifies s`tokens, s`strstart, s`lookahead, s`matchLength
    ensures s.Valid(false) && Ledger(s, |s.input| - s.lookahead, total) && (!bflush ==> s.Room())
            && s.lookahead < old(s.lookahead)
    ensures s.All() == old(s.All()) + [Match(1, old(s.matchLength))]
    ensures Base(s) == old(Base(s)) && s.strstart > old(s.strstart)
  {
    hide DeflateState.Chains, DeflateState.KeyFor, DeflateState.Tallied, DeflateState.Reads, Proper, Decode, TokensOf,
      Holds, SameRun, Repeats;
    WindowRepeats(s.window[..], s.input, s.strstart, s.lookahead, s.strstart - 1, s.matchLength);
    bflush := TallyDist(s, 1, s.matchLength, |s.input| - s.lookahead);
    PassPlain(s, s.matchLength);
    s.matchLength := 0;
  }

  lemma SameRunLess(w: seq<Byte>, m: nat, at: nat, len: nat, len': nat)
    requires SameRun(w, m, at, len) && len' <= len
    ensures SameRun(w, m, at, len')
  {
  }

  /** Finds the run at strstart, as far as the data goes. */
  method FindRun(s: DeflateState, ghost total: seq<Byte>, ghost m: Marks)
    requires s.Valid(false) && 0 < s.lookahead && s.strstart + MAX_MATCH < s.window.Length
    requires Supplied(s, MAX_MATCH + 1, total, m) && Begun(s, m)
    modifies s`matchLength
    ensures s.matchLength >= MIN_MATCH ==>
              s.matchLength <= s.lookahead && s.matchLength <= MAX_MATCH && 0 < s.strstart
              && SameRun(s.window[..], s.strstart - 1, s.strstart, s.matchLength)
              && NoRun(m, total, |s.input| - s.lookahead, s.matchLength)
    ensures s.matchLength < MIN_MATCH ==>
              |s.input| - s.lookahead in m.begins || NoRun(m, total, |s.input| - s.lookahead, MIN_MATCH - 1)
  {
    hide DeflateState.Chains, DeflateState.KeyFor, Proper, Holds, SameRun, NoRun;
    DataIn(s, false);
    s.matchLength := 0;
    if s.lookahead >= MIN_MATCH && s.strstart > 0 {
      var run := RunAhead(s.window, s.strstart);
      s.matchLength := if run > s.lookahead then s.lookahead else run;
      if run > 0 { SameRunLess(s.window[..], s.strstart - 1, s.strstart, run, s.matchLength); }
      RunIs(s, total, m, if run == 0 then MIN_MATCH - 1 else run, if run == 0 then MIN_MATCH - 1 else s.matchLength);
    } else if s.lookahead < MIN_MATCH {
      NoRunLeft(s, total, m, MIN_MATCH - 1);
    }
  }

  lemma PlainTraced(s: DeflateState, strategy: Strategy, total: seq<Byte>, m: Marks, ts: seq<Token>, tok: Token, n: nat)
    requires strategy == Rle || strategy == Huff
    requires AllChosen(strategy, s.cfg, m, total, ts) && (forall e :: e in m.ends ==> e <= |total|) && Begun(s, m)
    requires s.All() == ts + [tok] && n == |Decode(ts)| && (strategy == Rle ==> Settled(m, total, n))
    requires tok.Match? ==> strategy == Rle && tok.dist == 1 && NoRun(m, total, n, tok.len)
    requires tok.Lit? && strategy == Rle ==> n in m.begins || NoRun(m, total, n, MIN_MATCH - 1)
    ensures Traced(s, strategy, total, m)
  {
    hide AllChosen, Settled, Decode, Begun, NoRun;
    TracedOn(s, strategy, total, m, ts, tok, n, {});
  }

  /** One step of deflate_rle. */
  method RleStep(s: DeflateState, ghost total: seq<Byte>, ghost m: Marks) returns (full: bool)
    requires Going(s, false, total) && 0 < s.lookahead && s.strstart + MAX_MATCH < s.window.Length
    requires Traced(s, Rle, total, m) && Supplied(s, MAX_MATCH + 1, total, m)
    modifies s, s.window, s.prev, s.head
    ensures Going(s, false, total) && |s.nextIn| + s.lookahead < old(|s.nextIn| + s.lookahead)
    ensures Traced(s, Rle, total, m) && |s.blocks| >= |old(s.blocks)| + (if full then 1 else 0)
  {
    hide DeflateState.Valid, DeflateState.Room, Going, SameRun, DeflateState.Tallied, AllChosen, NoRun, Settled,
      Decode, DeflateState.Span, DeflateState.Reads;
    GoingParts(s, false, total);
    ghost var ts, n, base, start := s.All(), |s.input| - s.lookahead, Base(s), s.strstart;
    TalliedLength(s, n);
    SettledHere(s, total, m);
    FindRun(s, total, m);
    var bflush;
    if s.matchLength >= MIN_MATCH {
      bflush := EmitRun(s, total);
    } else {
      bflush := EmitPlain(s, total);
    }
    full := false;
    if bflush { full := FlushNow(s, false, false, total); }
    LedgerOf(s, false, total);
    BegunOn(s, m, base, start);
    PlainTraced(s, Rle, total, m, ts, s.All()[|ts|], n);
  }

  /** One step of deflate_huff. */
  method HuffStep(s: DeflateState, ghost total: seq<Byte>, ghost m: Marks) returns (full: bool)
    requires Going(s, false, total) && 0 < s.lookahead && Traced(s, Huff, total, m)
    modifies s, s.window, s.prev, s.head
    ensures Going(s, false, total) && |s.nextIn| + s.lookahead < old(|s.nextIn| + s.lookahead)
    ensures Traced(s, Huff, total, m) && |s.blocks| >= |old(s.blocks)| + (if full then 1 else 0)
  {
    hide DeflateState.Valid, DeflateState.Room, Going, DeflateState.Tallied, AllChosen, Settled, Decode,
      DeflateState.Span, DeflateState.Reads;
    GoingParts(s, false, total);
    ghost var ts, n, base, start := s.All(), |s.input| - s.lookahead, Base(s), s.strstart;
    TalliedLength(s, n);
    s.matchLength := 0;
    var bflush := EmitPlain(s, total);
    full := false;
    if bflush { full := FlushNow(s, false, false, total); }
    LedgerOf(s, false, total);
    BegunOn(s, m, base, start);
    PlainTraced(s, Huff, total, m, ts, s.All()[|ts|], n);
  }

  method EndPlain(s: DeflateState, flush: Flush, ghost total: seq<Byte>, ghost strategy: Strategy, ghost m: Marks)
    returns (answer: Answer)
    requires Going(s, false, total) && s.lookahead == 0 && s.nextIn == [] && flush != NoFlush
             && Traced(s, strategy, total, m)
    modifies s`insert, s`tokens, s`blocks, s`blockStart
    ensures Going(s, false, total) && Outcome(s, flush, total, answer) && Done(s, total)
            && Traced(s, strategy, total, m)
    ensures flush == FinishFlush ==> answer != NeedMore
    ensures |s.blocks| >= |old(s.blocks)| && (answer == NeedMore ==> |s.blocks| > |old(s.blocks)|)
  {
    hide DeflateState.Chains, Holds, Ready, DeflateState.Tallied, DeflateState.Span, Done, AllChosen, Recalls, Begun;
    GoingParts(s, false, total);
    ChainsOn(s, s.strstart, s.strstart, s.strstart - s.insert, s.strstart, s.strstart);
    s.insert := 0;
    answer := EndBlocks(s, flush, false, total);
  }

  /** deflate_rle: matches of distance one only. */
  method DeflateRle(s: DeflateState, flush: Flush, ghost total: seq<Byte>, ghost m: Marks) returns (answer: Answer)
    requires Going(s, false, total) && Traced(s, Rle, total, m) && (flush == NoFlush || |total| in m.ends)
    modifies s, s.window, s.prev, s.head
    ensures Going(s, false, total) && Outcome(s, flush, total, answer)
    ensures Traced(s, Rle, total, m) && (answer == NeedMore ==> Starved(s, flush, MAX_MATCH + 1))
    ensures flush == FinishFlush && answer == NeedMore ==> |s.nextIn| + s.lookahead < old(|s.nextIn| + s.lookahead)
  {
    hide Going, Done, Traced;
    while true
      invariant Going(s, false, total) && |s.nextIn| + s.lookahead <= old(|s.nextIn| + s.lookahead)
      invariant Traced(s, Rle, total, m) && |s.blocks| >= |old(s.blocks)|
      decreases |s.nextIn| + s.lookahead
    {
      var go := Refill(s, MAX_MATCH + 1, flush, false, total, Rle, m);
      if !go { return NeedMore; }
      if s.lookahead == 0 { break; }
      var full := RleStep(s, total, m);
      if full { return NeedMore; }
    }
    answer := EndPlain(s, flush, total, Rle, m);
  }

  /** deflate_huff: literals only. */
  method DeflateHuff(s: DeflateState, flush: Flush, ghost total: seq<Byte>, ghost m: Marks) returns (answer: Answer)
    requires Going(s, false, total) && Traced(s, Huff, total, m) && (flush == NoFlush || |total| in m.ends)
    modifies s, s.window, s.prev, s.head
    ensures Going(s, false, total) && Outcome(s, flush, total, answer)
    ensures Traced(s, Huff, total, m) && (answer == NeedMore ==> Starved(s, flush, 1))
    ensures flush == FinishFlush && answer == NeedMore ==> |s.nextIn| + s.lookahead < old(|s.nextIn| + s.lookahead)
  {
    hide Going, Done, Traced;
    while true
      invariant Going(s, false, total) && |s.nextIn| + s.lookahead <= old(|s.nextIn| + s.lookahead)
      invariant Traced(s, Huff, total, m) && |s.blocks| >= |old(s.blocks)|
      decreases |s.nextIn| + s.lookahead
    {
      var go := Refill(s, 1, flush, false, total, Huff, m);
      if !go { return NeedMore; }
      if s.lookahead == 0 { break; }
      var full := HuffStep(s, total, m);
      if full { return NeedMore; }
    }
    answer := EndPlain(s, flush, total, Huff, m);
  }
}
