/** The compressor's state: the sliding window, its hash chains, and the blocks of tokens. */
module DeflateWindow {
  import opened Bits
  import opened Sequences
  import opened LzTokens
  import opened RollingHash
  import opened HashChains

  const MIN_LOOKAHEAD := MAX_MATCH + MIN_MATCH + 1
  const WIN_INIT := MAX_MATCH

  /** What deflateInit2 and the configuration table fix for a stream. */
  datatype Config = Config(wsize: nat, hashing: Hashing, maxChain: nat, good: nat, nice: nat, maxLazy: nat,
      filtered: bool, litBufsize: nat)

  ghost predicate Usable(c: Config) {
    c.wsize >= 512 && Proper(c.hashing) && c.maxChain >= 4 && c.litBufsize >= 128
  }

  /** A block handed to the tree coder: its tokens, and the same bytes for storing, if still in the window. */
  datatype Raw = InWindow(bytes: seq<Byte>) | Gone
  datatype Block = Block(tokens: seq<Token>, raw: Raw, last: bool)

  ghost function TokensOf(bs: seq<Block>): seq<Token> {
    if bs == [] then [] else TokensOf(bs[..|bs| - 1]) + bs[|bs| - 1].tokens
  }

  /** Storing block i means the same as its tokens. */
  ghost predicate RawAgrees(bs: seq<Block>, i: nat)
    requires i < |bs|
  {
    bs[i].raw.InWindow? ==> Decode(TokensOf(bs[..i + 1])) == Decode(TokensOf(bs[..i])) + bs[i].raw.bytes
  }

  ghost predicate RawsAgree(bs: seq<Block>) {
    forall i: nat :: i < |bs| ==> RawAgrees(bs, i)
  }

  lemma TokensMore(bs: seq<Block>, b: Block)
    ensures TokensOf(bs + [b]) == TokensOf(bs) + b.tokens
  {
    assert (bs + [b])[..|bs|] == bs;
  }

  lemma RawsMore(bs: seq<Block>, b: Block)
    requires RawsAgree(bs) && (b.raw.InWindow? ==>
                                 Decode(TokensOf(bs) + b.tokens) == Decode(TokensOf(bs)) + b.raw.bytes)
    ensures RawsAgree(bs + [b])
  {
    var bs' := bs + [b];
    TokensMore(bs, b);
    forall i: nat | i < |bs'| ensures RawAgrees(bs', i) {
      if i < |bs| {
        assert RawAgrees(bs, i);
        assert bs'[..i + 1] == bs[..i + 1] && bs'[..i] == bs[..i];
      } else {
        assert bs'[..i + 1] == bs' && bs'[..i] == bs;
      }
    }
  }

  lemma NoTokens(maxDist: nat)
    ensures TokensOf([]) == [] && Decode([]) == [] && Decode(TokensOf([]) + []) == []
    ensures AllEncodable(TokensOf([]) + [], maxDist) && RawsAgree([])
  {
  }

  /** The window ends with the last n bytes read. */
  ghost predicate Holds(w: seq<Byte>, input: seq<Byte>, n: nat) {
    n <= |w| && n <= |input| && w[..n] == input[|input| - n..]
  }

  lemma HoldsMore(w: seq<Byte>, w': seq<Byte>, input: seq<Byte>, n: nat, more: seq<Byte>)
    requires Holds(w, input, n) && |w'| == |w| && n + |more| <= |w| && w'[..n] == w[..n] && w'[n..n + |more|] == more
    ensures Holds(w', input + more, n + |more|)
  {
    assert w'[..n + |more|] == w'[..n] + more;
    assert (input + more)[|input| - n..] == input[|input| - n..] + more;
  }

  lemma HoldsSlid(w: seq<Byte>, w': seq<Byte>, input: seq<Byte>, n: nat, wsize: nat)
    requires Holds(w, input, n) && |w'| == |w| == 2 * wsize && wsize <= n && w'[..wsize] == w[wsize..]
    ensures Holds(w', input, n - wsize)
  {
    assert w'[..n - wsize] == w'[..wsize][..n - wsize];
    assert w[wsize..][..n - wsize] == w[..n][wsize..];
  }

  lemma HoldsSame(w: seq<Byte>, w': seq<Byte>, input: seq<Byte>, n: nat)
    requires Holds(w, input, n) && SameBefore(w, w', n)
    ensures Holds(w', input, n)
  {
    assert w'[..n] == w[..n];
  }

  /** The len bytes at m and at s are the same. */
  ghost predicate SameRun(w: seq<Byte>, m: nat, s: nat, len: nat) {
    m <= s && s + len <= |w| && forall j :: s <= j < s + len ==> w[j] == w[j - (s - m)]
  }

  /** Bytes that agree in the window agree in the input. */
  lemma WindowRepeats(w: seq<Byte>, input: seq<Byte>, strstart: nat, lookahead: nat, m: nat, len: nat)
    requires Holds(w, input, strstart + lookahead) && m < strstart && len <= lookahead
    requires SameRun(w, m, strstart, len)
    ensures Repeats(input, |input| - lookahead, strstart - m, len)
  {
    var n, base := |input| - lookahead, |input| - strstart - lookahead;
    forall k | n <= k < n + len ensures input[k] == input[k - (strstart - m)] {
      var i: nat := k - n;
      var j := strstart + i;
      assert w[j] == w[j - (strstart - m)];
      assert w[..strstart + lookahead][strstart + i] == input[base..][strstart + i];
      assert w[..strstart + lookahead][m + i] == input[base..][m + i];
    }
  }

  lemma RepeatsMore(data: seq<Byte>, more: seq<Byte>, n: nat, dist: nat, len: nat)
    requires Repeats(data, n, dist, len)
    ensures Repeats(data + more, n, dist, len)
  {
  }

  class DeflateState {
    const cfg: Config
    const window: array<Byte>
    const prev: array<nat>
    const head: array<nat>
    var insH: nat
    var strstart: nat
    var lookahead: nat
    var insert: nat
    var matchLength: nat
    var matchStart: int
    var prevLength: nat
    var prevMatch: int
    var matchAvailable: bool
    var highWater: nat
    var blockStart: int
    var nextIn: seq<Byte>
    var tokens: seq<Token>
    var blocks: seq<Block>
    ghost var input: seq<Byte>
    ghost var inserted: set<nat>

    /** lm_init: an empty window and empty chains. */
    constructor (c: Config)
      requires Usable(c)
      ensures cfg == c && fresh(window) && fresh(prev) && fresh(head)
      ensures Valid(true) && Tallied(0) && Span() && Room() && Reads([]) && input == [] && tokens == [] && blocks == []
      ensures strstart == 0 && lookahead == 0 && insert == 0 && matchLength == MIN_MATCH - 1 == prevLength
              && !matchAvailable
    {
      hide Chained, Ready, Pow2, Proper, RawsAgree, AllEncodable, Decode, TokensOf;
      cfg := c;
      window := new Byte[2 * c.wsize](_ => 0);
      prev := new nat[c.wsize](_ => 0);
      head := new nat[Pow2(c.hashing.bits)](_ => 0);
      insH, strstart, lookahead, insert := 0, 0, 0, 0;
      matchLength, matchStart, prevLength, prevMatch, matchAvailable := MIN_MATCH - 1, 0, MIN_MATCH - 1, 0, false;
      highWater, blockStart := 0, 0;
      nextIn, tokens, blocks := [], [], [];
      input, inserted := [], {};
      new;
      NoTokens(MaxDist());
      ChainsEmpty(cfg.hashing, cfg.wsize, window[..], head[..], prev[..], 0, 0, 0);
    }

    function MaxDist(): nat { if cfg.wsize < MIN_LOOKAHEAD then 0 else cfg.wsize - MIN_LOOKAHEAD }

    ghost predicate Shape() {
      && Usable(cfg) && window.Length == 2 * cfg.wsize && prev.Length == cfg.wsize
         && head.Length == Pow2(cfg.hashing.bits)
      && prev != head && window as object != prev && window as object != head
    }

    ghost predicate Data()
      reads this`strstart, this`lookahead, this`input, window
    {
      Holds(window[..], input, strstart + lookahead)
    }

    ghost predicate Chains(cur: nat, lim: nat, top: nat)
      reads this`inserted, window, prev, head
    {
      Chained(cfg.hashing, cfg.wsize, window[..], head[..], prev[..], inserted, cur, lim, top)
    }

    /** The running key stands for the two bytes at v, if the data goes far enough. */
    ghost predicate KeyFor(v: nat, top: nat)
      reads this`insH, window
    {
      v + 2 < top <= window.Length ==> Ready(cfg.hashing, insH, window[v], window[v + 1])
    }

    /** Strings left to insert wait until their three bytes are there. */
    ghost predicate Waiting()
      reads this`strstart, this`lookahead, this`insert
    {
      insert <= strstart && (insert > 0 ==> lookahead + insert < MIN_MATCH)
    }

    /** keyed: the running key is kept up, as the strategies that insert strings need it. */
    ghost predicate Valid(keyed: bool)
      reads this`strstart, this`lookahead, this`insert, this`input, this`inserted, this`insH, window, prev, head
    {
      && Shape() && Data() && Waiting()
      && Chains(strstart, strstart - insert, strstart + lookahead)
      && (keyed ==> KeyFor(strstart, strstart + lookahead))
    }

    ghost function All(): seq<Token>
      reads this`tokens, this`blocks
    {
      TokensOf(blocks) + tokens
    }

    /** Everything tallied so far decodes to the first n bytes read. */
    ghost predicate Tallied(n: nat)
      reads this`tokens, this`blocks, this`input
    {
      n <= |input| && Decode(All()) == input[..n] && AllEncodable(All(), MaxDist()) && RawsAgree(blocks)
    }

    /** The buffers have room for one more token. */
    ghost predicate Room()
      reads this`tokens
    {
      |tokens| + 1 < cfg.litBufsize
    }

    /** block_start marks where the current block begins, even once that has left the window. */
    ghost predicate Span()
      reads this`blocks, this`input, this`strstart, this`lookahead, this`blockStart
    {
      var from := |input| - lookahead - strstart + blockStart;
      0 <= from <= |input| && Decode(TokensOf(blocks)) == input[..from]
    }

    /** The stream as a whole. */
    ghost predicate Reads(total: seq<Byte>)
      reads this`input, this`nextIn
    {
      input + nextIn == total
    }

    // ---- hash chains ----

    /** INSERT_STRING at str: returns the head of the chain that the string joins. */
    method InsertString(str: nat, ghost cur: nat, ghost top: nat) returns (matchHead: nat)
      requires Shape() && Chains(cur, str, top) && str <= cur && str + 2 < top && KeyFor(str, top)
      modifies this`insH, this`inserted, prev, head
      ensures Chains(cur, str + 1, top) && KeyFor(str + 1, top)
      ensures matchHead == 0 || (matchHead in inserted && 0 < matchHead < str
                                 && KeyAt(cfg.hashing, window[..], matchHead) == KeyAt(cfg.hashing, window[..], str))
      ensures NoneBetween(cfg.hashing, window[..], inserted, matchHead, str, KeyAt(cfg.hashing, window[..], str))
      ensures inserted == if str == 0 then old(inserted) else old(inserted) + {str}
    {
      hide Chained, Ready, Three, Update, Proper, Pow2;
      ghost var w := window[..];
      ChainSizes(cfg.hashing, cfg.wsize, w, head[..], prev[..], inserted, cur, str, top);
      UpdateIs(cfg.hashing, insH, window[str], window[str + 1], window[str + 2]);
      insH := Update(cfg.hashing, insH, window[str + 2]);
      ChainsInsert(cfg.hashing, cfg.wsize, w, head[..], prev[..], inserted, cur, str, top, insH);
      matchHead := head[insH];
      ghost var head0, prev0 := head[..], prev[..];
      prev[Slot(cfg.wsize, str)] := matchHead;
      head[insH] := str;
      assert head[..] == head0[insH := str] && prev[..] == prev0[Slot(cfg.wsize, str) := matchHead];
      inserted := if str == 0 then inserted else inserted + {str};
      HeadNone(cfg.hashing, cfg.wsize, w, head0, prev0, old(inserted), inserted, cur, str, top, insH);
    }
  }

  lemma HeadNone(h: Hashing, wsize: nat, w: seq<Byte>, head: seq<nat>, prev: seq<nat>, ins: set<nat>, ins': set<nat>,
      cur: nat, lim: nat, top: nat, key: nat)
    requires Chained(h, wsize, w, head, prev, ins, cur, lim, top) && key < |head| && lim <= |w| && ins' <= ins + {lim}
    ensures NoneBetween(h, w, ins', head[key], lim, key)
  {
    hide Three, Pow2;
    assert NoneBetween(h, w, ins, head[key], |w|, key);
  }

  lemma ChainSizes(h: Hashing, wsize: nat, w: seq<Byte>, head: seq<nat>, prev: seq<nat>, ins: set<nat>, cur: nat,
      lim: nat, top: nat)
    requires Chained(h, wsize, w, head, prev, ins, cur, lim, top)
    ensures |w| == 2 * wsize && |prev| == wsize && |head| == Pow2(h.bits) && top <= 2 * wsize
  {
  }
}
