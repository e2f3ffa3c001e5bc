/** A whole stream: any number of chunks, any flushes, at a fixed strategy. */
module DeflateStream {
  import opened Bits
  import opened Sequences
  import opened LzTokens
  import opened RollingHash
  import opened HashChains
  import opened DeflateWindow
  import opened DeflateFill
  import opened DeflateChoice
  import opened DeflateSearch
  import opened DeflateTrace
  import opened Deflate

  ghost predicate InState(s: DeflateState, strategy: Strategy, total: seq<Byte>)
    reads s, s.window, s.prev, s.head
  {
    match strategy
    case Fast => FastState(s, total)
    case Slow => SlowState(s, total)
    case Rle => Going(s, false, total)
    case Huff => Going(s, false, total)
  }

  /** All tokens so far were well chosen, and those to come can be. */
  ghost predicate Trail(s: DeflateState, strategy: Strategy, total: seq<Byte>, m: Marks)
    reads s
  {
    if strategy == Slow then SlowTraced(s, total, m) else Traced(s, strategy, total, m)
  }

  /** What a call with these flushes marks in the input, which ends at e. */
  ghost function Marked(m: Marks, e: nat, flush: Flush, fullFlush: bool): Marks {
    if flush == NoFlush then m else Marks(m.ends + {e}, if fullFlush then m.begins + {e} else m.begins)
  }

  /** Only the last call finishes. */
  function Asks(flush: Flush): Flush { if flush == FinishFlush then NoFlush else flush }

  /** All calls' marks: a flush ends its input, and a full one begins the history anew. */
  ghost function MarksOf(chunks: seq<seq<Byte>>, flushes: seq<Flush>, full: seq<bool>): Marks
    requires |chunks| == |flushes| == |full|
  {
    if chunks == [] then Marks({}, {0})
    else
      var k := |chunks| - 1;
      Marked(MarksOf(chunks[..k], flushes[..k], full[..k]), |Concat(chunks)|, Asks(flushes[k]), full[k])
  }

  lemma RecallsLater(ins: set<nat>, base: int, n: int, strategy: Strategy, m: Marks, m': Marks, ts: seq<Token>)
    requires Recalls(ins, base, n, strategy, m, ts) && m.ends <= m'.ends
    ensures Recalls(ins, base, n, strategy, m', ts)
  {
    hide Starts, Cut;
    forall t: nat | base < t < n && !Cut(m', t, MIN_MATCH) && (strategy == Fast ==> t in Starts(ts))
      ensures t - base in ins
    {
      if Cut(m, t, MIN_MATCH) { CutLater(m, m', t, MIN_MATCH); }
    }
  }

  /** More input, and more marks. */
  lemma TrailLater(s: DeflateState, strategy: Strategy, total: seq<Byte>, total': seq<Byte>, m: Marks, m': Marks)
    requires Trail(s, strategy, total, m) && Later(m, total, m', total') && forall e :: e in m'.ends ==> e <= |total'|
    ensures Trail(s, strategy, total', m')
  {
    hide AllChosen, Recalls, Judged;
    AllLater(strategy, s.cfg, m, total, m', total', s.All());
    if strategy == Fast || strategy == Slow {
      RecallsLater(s.inserted, Base(s), Base(s) + s.strstart, strategy, m, m', s.All());
    }
    if strategy == Slow && s.matchAvailable {
      JudgedLater(s.cfg, m, total, m', total', |s.input| - s.lookahead - 1, s.matchLength);
    }
  }

  /** An empty window with a new beginning. */
  lemma TrailForgets(s: DeflateState, strategy: Strategy, total: seq<Byte>, m: Marks)
    requires AllChosen(strategy, s.cfg, m, total, s.All()) && (forall e :: e in m.ends ==> e <= |total|)
    requires s.strstart == 0 && s.lookahead == 0 && |s.input| in m.begins && (strategy == Slow ==> !s.matchAvailable)
    ensures Trail(s, strategy, total, m)
  {
    hide AllChosen;
  }

  lemma TrailChosen(s: DeflateState, strategy: Strategy, total: seq<Byte>, m: Marks)
    requires Trail(s, strategy, total, m)
    ensures AllChosen(strategy, s.cfg, m, total, s.All()) && forall e :: e in m.ends ==> e <= |total|
  {
    hide AllChosen;
  }

  /** CLEAR_HASH. */
  method ClearHash(s: DeflateState, ghost cur: nat, ghost lim: nat, ghost top: nat)
    requires s.Shape() && top <= s.window.Length
    modifies s`inserted, s.head
    ensures s.Chains(cur, lim, top)
  {
    hide Pow2, Proper;
    for i := 0 to s.head.Length
      invariant forall k :: 0 <= k < i ==> s.head[k] == 0
    {
      s.head[i] := 0;
    }
    s.inserted := {};
    ChainsEmpty(s.cfg.hashing, s.cfg.wsize, s.window[..], s.head[..], s.prev[..], cur, lim, top);
  }

  /** A state with an empty window and everything tallied. */
  ghost predicate Cleared(s: DeflateState, strategy: Strategy, total: seq<Byte>)
    reads s`lookahead, s`tokens, s`blocks, s`input, s`nextIn, s`matchAvailable, s`matchLength, s`prevLength
  {
    && s.Shape() && s.lookahead == 0 && s.tokens == [] && s.Tallied(|s.input|) && s.Reads(total)
    && (strategy == Slow ==> !s.matchAvailable && s.matchLength == MIN_MATCH - 1)
    && (strategy == Fast ==> s.matchLength < MIN_MATCH && s.prevLength == MIN_MATCH - 1)
  }

  lemma ClearedOf(s: DeflateState, strategy: Strategy, total: seq<Byte>)
    requires InState(s, strategy, total) && Done(s, total)
             && (strategy == Slow ==> !s.matchAvailable && s.matchLength < MIN_MATCH)
    ensures Cleared(s, strategy, total) && s.lookahead == 0 && s.input == total
  {
    hide Chained, Ready, Decode, TokensOf, AllEncodable, RawsAgree, Repeats, Holds, Proper, Pow2;
  }

  lemma ClearedShape(s: DeflateState, strategy: Strategy, total: seq<Byte>)
    requires Cleared(s, strategy, total)
    ensures s.Shape()
  {
  }

  lemma Restarted(s: DeflateState, strategy: Strategy, total: seq<Byte>)
    requires Cleared(s, strategy, total) && s.strstart == 0 && s.blockStart == 0 && s.insert == 0 && s.Chains(0, 0, 0)
    ensures InState(s, strategy, total)
  {
    hide Chained, Ready, Decode, TokensOf, AllEncodable, RawsAgree, Proper, Pow2;
    assert s.window[..0] == s.input[|s.input|..];
    assert s.All() == TokensOf(s.blocks);
  }

  /** What a full flush adds once its block is done: the history is forgotten. */
  method ForgetHistory(s: DeflateState, strategy: Strategy, ghost total: seq<Byte>, ghost m: Marks)
    requires InState(s, strategy, total) && Done(s, total) && Trail(s, strategy, total, m) && |total| in m.begins
             && (strategy == Slow ==> !s.matchAvailable && s.matchLength < MIN_MATCH)
    modifies s`strstart, s`blockStart, s`insert, s`inserted, s.head
    ensures InState(s, strategy, total) && Done(s, total) && Trail(s, strategy, total, m)
  {
    hide DeflateState.Tallied, InState, Cleared, Done, Trail, AllChosen;
    TrailChosen(s, strategy, total, m);
    ClearedOf(s, strategy, total);
    ClearedShape(s, strategy, total);
    ClearHash(s, 0, 0, 0);
    s.strstart := 0;
    s.blockStart := 0;
    s.insert := 0;
    Restarted(s, strategy, total);
    TrailForgets(s, strategy, total, m);
  }

  lemma ReadsMore(s: DeflateState, strategy: Strategy, total: seq<Byte>, chunk: seq<Byte>)
    requires s.Reads(total)
    ensures s.input + (s.nextIn + chunk) == total + chunk
  {
  }

  /** The strategy's turn, on whatever input there is. */
  method Run(s: DeflateState, strategy: Strategy, flush: Flush, ghost total: seq<Byte>, ghost m: Marks)
    returns (answer: Answer)
    requires InState(s, strategy, total) && Trail(s, strategy, total, m) && (flush == NoFlush || |total| in m.ends)
    modifies s, s.window, s.prev, s.head
    ensures InState(s, strategy, total) && Outcome(s, flush, total, answer) && Trail(s, strategy, total, m)
    ensures answer == NeedMore ==> Starved(s, flush, MIN_LOOKAHEAD)
    ensures answer == BlockDone && strategy == Slow ==> !s.matchAvailable && s.matchLength < MIN_MATCH
    ensures flush == FinishFlush && answer == NeedMore ==> |s.nextIn| + s.lookahead < old(|s.nextIn| + s.lookahead)
  {
    hide Going, Done, Traced, Judged, DeflateState.Valid, SlowLedger, Pending;
    match strategy {
      case Fast => answer := DeflateFast(s, flush, total, m);
      case Slow => answer := DeflateSlow(s, flush, total, m);
      case Rle => answer := DeflateRle(s, flush, total, m);
      case Huff => answer := DeflateHuff(s, flush, total, m);
    }
  }

  /** One call of deflate with more input: all of it is read sooner or later, and whenever an
      answer other than NeedMore comes back, all of it has been tallied. */
  method Call(s: DeflateState, strategy: Strategy, chunk: seq<Byte>, flush: Flush, fullFlush: bool,
      ghost total: seq<Byte>, ghost m: Marks) returns (answer: Answer)
    requires InState(s, strategy, total) && Trail(s, strategy, total, m)
    modifies s, s.window, s.prev, s.head
    ensures InState(s, strategy, total + chunk) && Outcome(s, flush, total + chunk, answer)
    ensures Trail(s, strategy, total + chunk, Marked(m, |total + chunk|, flush, fullFlush))
    ensures answer == NeedMore ==> Starved(s, flush, MIN_LOOKAHEAD)
    ensures flush == FinishFlush && answer == NeedMore ==>
              |s.nextIn| + s.lookahead < old(|s.nextIn| + s.lookahead) + |chunk|
  {
    hide InState, Trail, Done;
    ghost var total', m1, m2 := total + chunk, Marked(m, |total + chunk|, flush, false),
      Marked(m, |total + chunk|, flush, fullFlush);
    GiveInput(s, strategy, chunk, total, m);
    TrailLater(s, strategy, total, total', m, m1);
    answer := Run(s, strategy, flush, total', m1);
    EndsWithin(s, strategy, total', m1);
    TrailLater(s, strategy, total', total', m1, m2);
    if answer == BlockDone && fullFlush { ForgetHistory(s, strategy, total', m2); }
  }

  lemma EndsWithin(s: DeflateState, strategy: Strategy, total: seq<Byte>, m: Marks)
    requires Trail(s, strategy, total, m)
    ensures forall e :: e in m.ends ==> e <= |total|
  {
    hide AllChosen;
  }

  /** The caller's buffer grows at the end. */
  method GiveInput(s: DeflateState, strategy: Strategy, chunk: seq<Byte>, ghost total: seq<Byte>, ghost m: Marks)
    requires InState(s, strategy, total) && Trail(s, strategy, total, m)
    modifies s`nextIn
    ensures InState(s, strategy, total + chunk) && s.nextIn == old(s.nextIn) + chunk
    ensures Trail(s, strategy, total, m) && forall e :: e in m.ends ==> e <= |total|
  {
    hide AllChosen, Recalls, Judged, Chained, Ready, Decode, TokensOf, AllEncodable, RawsAgree, Repeats, Holds, Proper,
      Pow2;
    assert s.Reads(total);
    ReadsMore(s, strategy, total, chunk);
    s.nextIn := s.nextIn + chunk;
  }

  /** A stream from its chunks: the blocks decode to the bytes given, every pair can be coded,
      the raw bytes offered with a block are those its tokens stand for, and every token is one that
      the strategy should choose. */
  method Compress(c: Config, strategy: Strategy, chunks: seq<seq<Byte>>, flushes: seq<Flush>, full: seq<bool>)
    returns (blocks: seq<Block>)
    requires Usable(c) && |flushes| == |chunks| == |full|
    ensures Decode(TokensOf(blocks)) == Concat(chunks) && AllEncodable(TokensOf(blocks), c.wsize - MIN_LOOKAHEAD)
            && RawsAgree(blocks)
    ensures blocks != [] && blocks[|blocks| - 1].last
    ensures AllChosen(strategy, c, Marked(MarksOf(chunks, flushes, full), |Concat(chunks)|, FinishFlush, false),
                      Concat(chunks), TokensOf(blocks))
  {
    hide DeflateState.Valid, DeflateState.Tallied, DeflateState.Span, DeflateState.Reads, Done, Going, Ledger, Pending,
      SlowLedger, InState, Usable, Decode, TokensOf, Trail, Marked;
    var s := new DeflateState(c);
    Started(s, strategy);
    var i := 0;
    while i < |chunks|
      invariant 0 <= i <= |chunks| && InState(s, strategy, Concat(chunks[..i])) && s.cfg == c && fresh(s)
                && fresh(s.window) && fresh(s.prev) && fresh(s.head)
      invariant Trail(s, strategy, Concat(chunks[..i]), MarksOf(chunks[..i], flushes[..i], full[..i]))
    {
      assert chunks[..i + 1][..i] == chunks[..i] && flushes[..i + 1][..i] == flushes[..i]
             && full[..i + 1][..i] == full[..i];
      var a := Call(s, strategy, chunks[i], Asks(flushes[i]), full[i], Concat(chunks[..i]),
                    MarksOf(chunks[..i], flushes[..i], full[..i]));
      i := i + 1;
    }
    assert chunks[..i] == chunks && flushes[..i] == flushes && full[..i] == full;
    ghost var m := MarksOf(chunks, flushes, full);
    var answer := NeedMore;
    while answer == NeedMore
      invariant InState(s, strategy, Concat(chunks)) && Outcome(s, FinishFlush, Concat(chunks), answer) && s.cfg == c
      invariant fresh(s) && fresh(s.window) && fresh(s.prev) && fresh(s.head)
      invariant Trail(s, strategy, Concat(chunks), m)
                && (m == MarksOf(chunks, flushes, full)
                    || m == Marked(MarksOf(chunks, flushes, full), |Concat(chunks)|, FinishFlush, false))
      invariant answer != NeedMore ==>
                  m == Marked(MarksOf(chunks, flushes, full), |Concat(chunks)|, FinishFlush, false)
      decreases answer == NeedMore, |s.nextIn| + s.lookahead
    {
      assert Concat(chunks) + [] == Concat(chunks);
      answer := Call(s, strategy, [], FinishFlush, false, Concat(chunks), m);
      MarkedTwice(MarksOf(chunks, flushes, full), |Concat(chunks)|);
      m := Marked(m, |Concat(chunks)|, FinishFlush, false);
    }
    blocks := s.blocks;
    TrailChosen(s, strategy, Concat(chunks), m);
    Finished(s, strategy, Concat(chunks));
  }

  lemma MarkedTwice(m: Marks, e: nat)
    ensures Marked(Marked(m, e, FinishFlush, false), e, FinishFlush, false) == Marked(m, e, FinishFlush, false)
  {
  }

  lemma Started(s: DeflateState, strategy: Strategy)
    requires s.Valid(true) && s.Tallied(0) && s.Span() && s.Room() && s.Reads([]) && s.input == []
    requires s.strstart == 0 && s.lookahead == 0 && s.matchLength == MIN_MATCH - 1 == s.prevLength && !s.matchAvailable
             && s.tokens == [] && s.blocks == []
    ensures InState(s, strategy, []) && Trail(s, strategy, [], MarksOf([], [], []))
  {
    assert s.All() == [];
    TrailForgets(s, strategy, [], Marks({}, {0}));
    hide Trail, DeflateState.Tallied, DeflateState.Span, DeflateState.Reads, DeflateState.Chains, DeflateState.KeyFor,
      Repeats, Holds, Proper, Pow2;
  }

  lemma Finished(s: DeflateState, strategy: Strategy, total: seq<Byte>)
    requires InState(s, strategy, total) && Done(s, total)
    ensures Decode(TokensOf(s.blocks)) == total && AllEncodable(TokensOf(s.blocks), s.cfg.wsize - MIN_LOOKAHEAD)
            && RawsAgree(s.blocks) && TokensOf(s.blocks) == s.All()
  {
    assert s.All() == TokensOf(s.blocks);
    hide Decode, TokensOf, RawsAgree, Chained, Ready, Holds;
  }
}
