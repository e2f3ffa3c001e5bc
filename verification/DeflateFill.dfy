/** Keeping the window filled: sliding it down, reading input, inserting strings that
    had to wait for their third byte. */
module DeflateFill {
  import opened Bits
  import opened Sequences
  import opened LzTokens
  import opened RollingHash
  import opened HashChains
  import opened DeflateWindow

  /** Moves every entry down with the window; what falls out becomes the end of a chain. */
  method SlideTable(a: array<nat>, wsize: nat)
    modifies a
    ensures forall k :: 0 <= k < a.Length ==> a[k] == Slid(wsize, old(a[k]))
  {
    var n := a.Length;
    while n > 0
      invariant 0 <= n <= a.Length
      invariant forall k :: 0 <= k < n ==> a[k] == old(a[k])
      invariant forall k :: n <= k < a.Length ==> a[k] == Slid(wsize, old(a[k]))
    {
      n := n - 1;
      a[n] := if a[n] >= wsize then a[n] - wsize else 0;
    }
  }

  method CopyDown(a: array<Byte>, wsize: nat)
    requires a.Length == 2 * wsize
    modifies a
    ensures forall i :: 0 <= i < wsize ==> a[i] == old(a[i + wsize])
  {
    for i := 0 to wsize
      invariant forall k :: 0 <= k < i ==> a[k] == old(a[k + wsize])
      invariant forall k :: i <= k < a.Length ==> a[k] == old(a[k])
    {
      a[i] := a[i + wsize];
    }
  }

  method SlideArrays(s: DeflateState)
    requires s.Shape()
    modifies s.window, s.prev, s.head
    ensures forall i :: 0 <= i < s.cfg.wsize ==> s.window[i] == old(s.window[i + s.cfg.wsize])
    ensures forall k :: 0 <= k < s.head.Length ==> s.head[k] == Slid(s.cfg.wsize, old(s.head[k]))
    ensures forall k :: 0 <= k < s.prev.Length ==> s.prev[k] == Slid(s.cfg.wsize, old(s.prev[k]))
  {
    hide Proper, Pow2;
    CopyDown(s.window, s.cfg.wsize);
    SlideTable(s.head, s.cfg.wsize);
    SlideTable(s.prev, s.cfg.wsize);
  }

  lemma KeyMoves(h: Hashing, insH: nat, w: seq<Byte>, w': seq<Byte>, wsize: nat, v: nat, top: nat)
    requires |w| == |w'| == 2 * wsize && (forall i :: 0 <= i < wsize ==> w'[i] == w[i + wsize]) && wsize <= v
             && top <= |w|
    requires v + 2 < top ==> Ready(h, insH, w[v], w[v + 1])
    ensures v - wsize + 2 < top - wsize ==> Ready(h, insH, w'[v - wsize], w'[v - wsize + 1])
  {
    hide Ready;
    if v + 2 < top {
      var u := v - wsize;
      assert w'[u] == w[u + wsize] && w'[u + 1] == w[u + 1 + wsize];
    }
  }

  /** Arrays and positions have all moved down by the window size. */
  twostate predicate Moved(s: DeflateState)
    requires s.Shape()
    reads s`strstart, s`lookahead, s`insert, s`input, s`inserted, s`insH, s.window, s.prev, s.head
  {
    && (forall i :: 0 <= i < s.cfg.wsize ==> s.window[i] == old(s.window[i + s.cfg.wsize]))
    && (forall k :: 0 <= k < s.head.Length ==> s.head[k] == Slid(s.cfg.wsize, old(s.head[k])))
    && (forall k :: 0 <= k < s.prev.Length ==> s.prev[k] == Slid(s.cfg.wsize, old(s.prev[k])))
    && old(s.strstart) >= s.cfg.wsize + s.MaxDist() && s.strstart == old(s.strstart) - s.cfg.wsize
    && s.lookahead == old(s.lookahead) && s.insert == old(s.insert) && s.input == old(s.input) && s.insH == old(s.insH)
    && s.inserted == SlidSet(s.cfg.wsize, old(s.inserted))
  }

  twostate lemma MovedData(s: DeflateState)
    requires s.Shape() && Moved(s) && old(s.Data())
    ensures s.Data()
  {
    hide Proper, Pow2, Slid, SlidSet;
    var w, w' := old(s.window[..]), s.window[..];
    assert w'[..s.cfg.wsize] == w[s.cfg.wsize..];
    HoldsSlid(w, w', s.input, s.lookahead + s.strstart + s.cfg.wsize, s.cfg.wsize);
  }

  twostate lemma MovedChains(s: DeflateState)
    requires s.Shape() && Moved(s) && old(s.Data() && s.Waiting())
             && old(s.Chains(s.strstart, s.strstart - s.insert, s.strstart + s.lookahead))
    ensures s.insert <= s.strstart && s.Chains(s.strstart, s.strstart - s.insert, s.strstart + s.lookahead)
  {
    hide Proper, Pow2, Slid, SlidSet, Chained, Holds;
    var wsize := s.cfg.wsize;
    ChainsSlide(s.cfg.hashing, wsize, old(s.window[..]), s.window[..], old(s.head[..]), s.head[..], old(s.prev[..]),
                s.prev[..],
      old(s.inserted), s.strstart + wsize, s.strstart + wsize - s.insert, s.strstart + wsize + s.lookahead);
  }

  twostate lemma MovedKey(s: DeflateState)
    requires s.Shape() && Moved(s) && old(s.Data()) && old(s.KeyFor(s.strstart, s.strstart + s.lookahead))
    ensures s.KeyFor(s.strstart, s.strstart + s.lookahead)
  {
    hide Proper, Pow2, Slid, SlidSet, Ready;
    KeyMoves(s.cfg.hashing, s.insH, old(s.window[..]), s.window[..], s.cfg.wsize, s.strstart + s.cfg.wsize,
             s.strstart + s.cfg.wsize + s.lookahead);
  }

  /** What was inserted still is, down places lower, unless it has left the window. */
  ghost predicate Keeps(ins: set<nat>, ins': set<nat>, down: int) {
    forall v :: v in ins && v > down ==> v - down in ins'
  }

  lemma KeepsAll(a: set<nat>)
    ensures Keeps(a, a, 0)
  {
  }

  lemma KeepsOn(a: set<nat>, b: set<nat>, c: set<nat>, down: int, down': int)
    requires Keeps(a, b, down) && Keeps(b, c, down') && 0 <= down'
    ensures Keeps(a, c, down + down')
  {
  }

  /** The upper half of the window becomes the lower; all positions move with it. */
  method Slide(s: DeflateState, ghost keyed: bool)
    requires s.Valid(keyed) && s.strstart >= s.cfg.wsize + s.MaxDist()
    modifies s`strstart, s`matchStart, s`blockStart, s`inserted, s.window, s.prev, s.head
    ensures s.Valid(keyed) && s.strstart == old(s.strstart) - s.cfg.wsize
    ensures s.matchStart == old(s.matchStart) - s.cfg.wsize && s.blockStart == old(s.blockStart) - s.cfg.wsize
    ensures Keeps(old(s.inserted), s.inserted, s.cfg.wsize)
  {
    hide Proper, Pow2, Slid, SlidSet, DeflateState.Data, DeflateState.Chains, DeflateState.KeyFor;
    SlideArrays(s);
    s.matchStart := s.matchStart - s.cfg.wsize;
    s.strstart := s.strstart - s.cfg.wsize;
    s.blockStart := s.blockStart - s.cfg.wsize;
    s.inserted := SlidSet(s.cfg.wsize, s.inserted);
    MovedData(s);
    MovedChains(s);
    if keyed { MovedKey(s); }
  }

  lemma DataFacts(s: DeflateState)
    requires s.Data()
    ensures s.strstart + s.lookahead <= s.window.Length && s.strstart + s.lookahead <= |s.input|
  {
  }

  /** read_buf: as much input as fits. */
  method ReadBuf(s: DeflateState, at: nat, size: nat) returns (n: nat)
    requires at + size <= s.window.Length
    modifies s`nextIn, s`input, s.window
    ensures n <= size && n <= |old(s.nextIn)| && (n == size || s.nextIn == [])
    ensures s.nextIn == old(s.nextIn)[n..] && s.input == old(s.input) + old(s.nextIn)[..n]
    ensures s.window[at..at + n] == old(s.nextIn)[..n]
    ensures forall i :: 0 <= i < s.window.Length && !(at <= i < at + n) ==> s.window[i] == old(s.window[i])
  {
    n := |s.nextIn|;
    if n > size { n := size; }
    ghost var w0 := s.window[..];
    for i := 0 to n
      invariant s.nextIn == old(s.nextIn) && s.input == old(s.input)
      invariant forall k :: 0 <= k < i ==> s.window[at + k] == s.nextIn[k]
      invariant forall k :: 0 <= k < s.window.Length && !(at <= k < at + i) ==> s.window[k] == w0[k]
    {
      s.window[at + i] := s.nextIn[i];
    }
    s.input := s.input + s.nextIn[..n];
    s.nextIn := s.nextIn[n..];
  }

  /** Starts the key afresh and inserts the strings that were left waiting, as far as the data goes. */
  method InsertWaiting(s: DeflateState)
    requires s.Shape() && s.Data() && s.insert <= s.strstart
             && s.Chains(s.strstart, s.strstart - s.insert, s.strstart + s.lookahead)
    requires s.insert > 0 ==> s.insert < MIN_MATCH
    modifies s`insH, s`insert, s`inserted, s.prev, s.head
    ensures s.Valid(true) && old(s.inserted) <= s.inserted
  {
    hide Chained, Ready, Proper, Pow2, Holds, Update;
    DataFacts(s);
    ghost var top := s.strstart + s.lookahead;
    if s.lookahead + s.insert >= MIN_MATCH {
      var str := s.strstart - s.insert;
      s.insH := s.window[str];
      StartKey(s.cfg.hashing, s.window[str], s.window[str + 1]);
      s.insH := Update(s.cfg.hashing, s.insH, s.window[str + 1]);
      while s.insert > 0
        invariant s.insert <= s.strstart && str == s.strstart - s.insert && s.KeyFor(str, top)
        invariant s.Data() && s.Chains(s.strstart, str, top) && s.lookahead + s.insert >= MIN_MATCH
        invariant old(s.inserted) <= s.inserted
        decreases s.insert
      {
        var matchHead := s.InsertString(str, s.strstart, top);
        str := str + 1;
        s.insert := s.insert - 1;
        if s.lookahead + s.insert < MIN_MATCH { break; }
      }
    }
  }

  /** Clears bytes after the data that were never written; the data stays. */
  method ClearAhead(s: DeflateState)
    requires s.strstart + s.lookahead <= s.window.Length
    modifies s`highWater, s.window
    ensures SameBefore(old(s.window[..]), s.window[..], s.strstart + s.lookahead)
    ensures s.highWater >= old(s.highWater) && (s.highWater >= s.strstart + s.lookahead + WIN_INIT
                                                || s.highWater >= s.window.Length)
  {
    ghost var w0 := s.window[..];
    var curr := s.strstart + s.lookahead;
    if s.highWater < s.window.Length {
      if s.highWater < curr {
        var init := s.window.Length - curr;
        if init > WIN_INIT { init := WIN_INIT; }
        Zero(s.window, curr, init);
        s.highWater := curr + init;
      } else if s.highWater < curr + WIN_INIT {
        var init := curr + WIN_INIT - s.highWater;
        if init > s.window.Length - s.highWater { init := s.window.Length - s.highWater; }
        Zero(s.window, s.highWater, init);
        s.highWater := s.highWater + init;
      }
    }
  }

  method Zero(a: array<Byte>, at: nat, n: nat)
    requires at + n <= a.Length
    modifies a
    ensures forall i :: 0 <= i < a.Length && !(at <= i < at + n) ==> a[i] == old(a[i])
  {
    for i := at to at + n
      invariant forall k :: 0 <= k < a.Length && !(at <= k < at + n) ==> a[k] == old(a[k])
    {
      a[i] := 0;
    }
  }

  /** One read at the end of the data. */
  method ReadMore(s: DeflateState, more: nat, ghost keyed: bool)
    requires s.Valid(keyed) && s.strstart + s.lookahead + more == s.window.Length && more > 0 && s.nextIn != []
    modifies s`lookahead, s`insert, s`input, s`nextIn, s`insH, s`inserted, s.window, s.prev, s.head
    ensures s.Valid(keyed) && s.input + s.nextIn == old(s.input + s.nextIn) && |s.nextIn| < |old(s.nextIn)|
            && old(s.input) <= s.input
    ensures |s.input| - s.lookahead == |old(s.input)| - old(s.lookahead)
    ensures s.lookahead > old(s.lookahead) && Keeps(old(s.inserted), s.inserted, 0)
  {
    hide Chained, Ready, Proper, Pow2, Holds, Update;
    ghost var w, input0, next0 := s.window[..], s.input, s.nextIn;
    var top := s.strstart + s.lookahead;
    DataFacts(s);
    var n := ReadBuf(s, top, more);
    assert next0[..n] + next0[n..] == next0;
    assert s.window[..][..top] == w[..top];
    HoldsMore(w, s.window[..], input0, top, next0[..n]);
    s.lookahead := s.lookahead + n;
    ChainsStay(s.cfg.hashing, s.cfg.wsize, w, s.window[..], s.head[..], s.prev[..], s.inserted,
      s.strstart, s.strstart, s.strstart - s.insert, s.strstart - s.insert, top, top + n);
    InsertWaiting(s);
  }

  /** What filling leaves alone: how far the work has come, and where matches and blocks start. */
  twostate predicate Kept(s: DeflateState)
    reads s`strstart, s`lookahead, s`matchStart, s`blockStart, s`input, s`nextIn, s`inserted
  {
    && s.input + s.nextIn == old(s.input + s.nextIn) && old(s.input) <= s.input
    && |s.input| - s.lookahead == |old(s.input)| - old(s.lookahead)
    && s.matchStart - s.strstart == old(s.matchStart - s.strstart)
       && s.blockStart - s.strstart == old(s.blockStart - s.strstart)
    && (s.strstart == old(s.strstart) || (s.strstart >= s.MaxDist() > 0 && s.strstart < old(s.strstart)))
    && Keeps(old(s.inserted), s.inserted, old(s.strstart) - s.strstart)
  }

  /** Slides if the position has gone far enough, and says how much room there is. */
  method MakeRoom(s: DeflateState, ghost keyed: bool) returns (more: nat)
    requires s.Valid(keyed) && s.lookahead < MIN_LOOKAHEAD
    modifies s`strstart, s`matchStart, s`blockStart, s`inserted, s.window, s.prev, s.head
    ensures s.Valid(keyed) && Kept(s) && s.strstart <= s.window.Length - MIN_LOOKAHEAD
    ensures s.strstart + s.lookahead + more == s.window.Length && more >= 2
  {
    hide Chained, Ready, Proper, Pow2, Holds;
    DataFacts(s);
    more := s.window.Length - s.lookahead - s.strstart;
    if s.strstart >= s.cfg.wsize + s.MaxDist() {
      Slide(s, keyed);
      more := more + s.cfg.wsize;
    }
  }

  /** fill_window. */
  method FillWindow(s: DeflateState, ghost keyed: bool)
    requires s.Valid(keyed) && s.lookahead < MIN_LOOKAHEAD
    modifies s`strstart, s`lookahead, s`insert, s`matchStart, s`blockStart, s`highWater, s`input, s`nextIn, s`insH,
             s`inserted, s.window, s.prev, s.head
    ensures s.Valid(keyed) && Kept(s) && s.strstart <= s.window.Length - MIN_LOOKAHEAD
    ensures s.lookahead >= MIN_LOOKAHEAD || s.nextIn == []
    ensures s.highWater >= s.strstart + s.lookahead + WIN_INIT || s.highWater >= s.window.Length
  {
    hide DeflateState.Valid, Keeps;
    KeepsAll(s.inserted);
    while true
      invariant s.Valid(keyed) && s.lookahead < MIN_LOOKAHEAD && Kept(s)
      decreases |s.nextIn|
    {
      ghost var ins, from := s.inserted, s.strstart;
      var more := MakeRoom(s, keyed);
      KeepsOn(old(s.inserted), ins, s.inserted, old(s.strstart) - from, from - s.strstart);
      if s.nextIn == [] { break; }
      ins := s.inserted;
      ReadMore(s, more, keyed);
      KeepsOn(old(s.inserted), ins, s.inserted, old(s.strstart) - s.strstart, 0);
      if !(s.lookahead < MIN_LOOKAHEAD && s.nextIn != []) { break; }
    }
    Finish(s, keyed);
  }

  method Finish(s: DeflateState, ghost keyed: bool)
    requires s.Valid(keyed)
    modifies s`highWater, s.window
    ensures s.Valid(keyed)
    ensures s.highWater >= s.strstart + s.lookahead + WIN_INIT || s.highWater >= s.window.Length
  {
    hide Chained, Ready, Proper, Pow2, Holds;
    DataFacts(s);
    ghost var w := s.window[..];
    ClearAhead(s);
    HoldsSame(w, s.window[..], s.input, s.strstart + s.lookahead);
    ChainsStay(s.cfg.hashing, s.cfg.wsize, w, s.window[..], s.head[..], s.prev[..], s.inserted,
      s.strstart, s.strstart, s.strstart - s.insert, s.strstart - s.insert, s.strstart + s.lookahead,
        s.strstart + s.lookahead);
  }
}
