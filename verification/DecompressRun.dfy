/** Running the machine: on whatever input is at hand, stopping where the input stops. How
    the input is cut into pieces makes no difference to the state, to the bit buffer, or to
    what is left of the input. */
module DecompressRun {
  import opened Bits
  import opened Sequences
  import opened BitStream
  import opened DecompressMachine
  import opened DecompressSteps

  /** The state of the decompressor with its bit buffer. */
  datatype Config = Config(saved: Saved, buff: Word, live: nat)

  ghost predicate Proper(c: Config) {
    Sane(c.saved) && Asks(c.saved.core) && c.live <= 32
  }

  /** GET_BITS, when there are enough: the value is stepped over. */
  ghost function Consume(c: Config): Config
    requires Proper(c) && Want(c.saved.core) <= c.live
  {
    var n := Want(c.saved.core);
    Config(Step(c.saved, Low(High(c.buff, c.live - n), n)), c.buff, c.live - n)
  }

  /** GET_BITS, when there are not: one more byte. */
  ghost function Pull(c: Config, b: Byte): Config
    requires c.live <= 24
  {
    ShiftInByte(c.buff, c.live, b);
    Config(c.saved, BitOr(c.buff * 256 % 0x1_0000_0000, b), c.live + 8)
  }

  lemma StepProper(s: Saved, v: nat, buff: Word, live: nat)
    requires Sane(s) && live <= 32
    ensures Proper(Config(Step(s, v), buff, live))
  {
    hide Step, Sane, Asks;
    StepSane(s, v);
  }

  lemma ProperFacts(c: Config)
    requires Proper(c)
    ensures Sane(c.saved) && c.live <= 32 && (Terminal(c.saved.core.at) || 1 <= Want(c.saved.core) <= 24)
  {
    if !Terminal(c.saved.core.at) { AsksSome(c.saved.core); }
  }

  lemma ConsumeProper(c: Config)
    requires Proper(c) && !Terminal(c.saved.core.at) && Want(c.saved.core) <= c.live
    ensures Proper(Consume(c)) && Consume(c).live < c.live
  {
    hide Proper, Step, Sane, High, Low;
    ProperFacts(c);
    var n := Want(c.saved.core);
    StepProper(c.saved, Low(High(c.buff, c.live - n), n), c.buff, c.live - n);
  }

  lemma WantSmall(c: Config)
    requires Proper(c) && !Terminal(c.saved.core.at)
    ensures 1 <= Want(c.saved.core) <= 24
  {
    hide Proper, Sane;
    ProperFacts(c);
  }

  /** One call on the input at hand: the configuration it leaves, and the input it leaves. */
  ghost function RunBytes(c: Config, input: seq<Byte>): (r: (Config, seq<Byte>))
    requires Proper(c)
    ensures Proper(r.0) && (Terminal(r.0.saved.core.at) || (r.1 == [] && r.0.live < Want(r.0.saved.core)))
    decreases |input|, c.live
  {
    if Terminal(c.saved.core.at) then (c, input)
    else if Want(c.saved.core) <= c.live then
      ConsumeProper(c);
      RunBytes(Consume(c), input)
    else if input == [] then (c, input)
    else
      WantSmall(c);
      RunBytes(Pull(c, input[0]), input[1..])
  }

  /** Stopping for lack of input and going on with more is going on. */
  lemma {:induction false} RunFeeds(c: Config, a: seq<Byte>, b: seq<Byte>)
    requires Proper(c)
    ensures var (c1, r1) := RunBytes(c, a); RunBytes(c1, r1 + b) == RunBytes(c, a + b)
    decreases |a|, c.live
  {
    hide Proper, Consume, Pull;
    if Terminal(c.saved.core.at) {
    } else if Want(c.saved.core) <= c.live {
      ConsumeProper(c);
      RunFeeds(Consume(c), a, b);
    } else if a == [] {
      assert a + b == b;
    } else {
      WantSmall(c);
      PullProper(c, a[0]);
      RunFeeds(Pull(c, a[0]), a[1..], b);
      assert (a + b)[0] == a[0] && (a + b)[1..] == a[1..] + b;
    }
  }

  lemma PullProper(c: Config, b: Byte)
    requires Proper(c) && c.live <= 24
    ensures Proper(Pull(c, b))
  {
  }

  /** Calls on one piece of input after another. */
  ghost function RunPieces(c: Config, left: seq<Byte>, pieces: seq<seq<Byte>>): (r: (Config, seq<Byte>))
    requires Proper(c)
    ensures Proper(r.0)
    decreases |pieces|
  {
    if pieces == [] then (c, left)
    else
      var (c1, r1) := RunBytes(c, left + pieces[0]);
      RunPieces(c1, r1, pieces[1..])
  }

  lemma PiecesNext(c: Config, left: seq<Byte>, pieces: seq<seq<Byte>>, i: nat)
    requires Proper(c) && i < |pieces|
    ensures var (c1, r1) := RunBytes(c, left + pieces[i]);
            RunPieces(c, left, pieces[i..]) == RunPieces(c1, r1, pieces[i + 1..])
  {
    hide RunBytes, Proper;
    assert pieces[i..][0] == pieces[i] && pieces[i..][1..] == pieces[i + 1..];
  }

  /** However the input is cut, the end is the same as after one call on all of it. */
  lemma {:induction false} PiecesDoNotMatter(c: Config, pieces: seq<seq<Byte>>)
    requires Proper(c) && pieces != []
    ensures RunPieces(c, [], pieces) == RunBytes(c, Concat(pieces))
  {
    hide RunBytes, Proper;
    var (c1, r1) := RunBytes(c, [] + pieces[0]);
    assert [] + pieces[0] == pieces[0];
    ConcatFirst(pieces);
    PiecesFrom(c, pieces[0], pieces[1..]);
  }

  lemma {:induction false} PiecesFrom(c: Config, a: seq<Byte>, pieces: seq<seq<Byte>>)
    requires Proper(c)
    ensures var (c1, r1) := RunBytes(c, a); RunPieces(c1, r1, pieces) == RunBytes(c, a + Concat(pieces))
    decreases |pieces|
  {
    hide RunBytes, Proper;
    var (c1, r1) := RunBytes(c, a);
    if pieces == [] {
      NothingMore(c, a);
      assert a + [] == a;
    } else {
      RunFeeds(c, a, pieces[0]);
      PiecesFrom(c, a + pieces[0], pieces[1..]);
      ConcatFirst(pieces);
      assert a + pieces[0] + Concat(pieces[1..]) == a + Concat(pieces);
    }
  }

  lemma NothingMore(c: Config, a: seq<Byte>)
    requires Proper(c)
    ensures Proper(RunBytes(c, a).0)
  {
  }

  // ---- in terms of bits ----

  ghost function BitsAhead(c: Config, input: seq<Byte>): seq<bool> {
    Live(c.buff, c.live) + BytesBits(input)
  }

  /** The machine on a sequence of bits. */
  ghost function Run(s: Saved, bits: seq<bool>): (r: (Saved, seq<bool>))
    requires Sane(s) && Asks(s.core)
    ensures Sane(r.0) && Asks(r.0.core)
    decreases |bits|
  {
    if Terminal(s.core.at) || |bits| < Want(s.core) then (s, bits)
    else
      AsksSome(s.core);
      StepSane(s, ValueOf(bits[..Want(s.core)]));
      Run(Step(s, ValueOf(bits[..Want(s.core)])), bits[Want(s.core)..])
  }

  lemma ConsumeBits(c: Config, input: seq<Byte>)
    requires Proper(c) && !Terminal(c.saved.core.at) && Want(c.saved.core) <= c.live
    ensures var n := Want(c.saved.core); var p := BitsAhead(c, input);
            n <= |p| && Consume(c).saved == Step(c.saved, ValueOf(p[..n])) && BitsAhead(Consume(c), input) == p[n..]
  {
    hide Step, BitsOf, ValueOf, BytesBits, Proper;
    var n := Want(c.saved.core);
    TakeBits(c.buff, c.live, n);
    var p := BitsAhead(c, input);
    assert p[..n] == Live(c.buff, c.live)[..n];
    assert p[n..] == Live(c.buff, c.live)[n..] + BytesBits(input);
  }

  lemma PullBits(c: Config, input: seq<Byte>)
    requires c.live <= 24 && input != []
    ensures BitsAhead(Pull(c, input[0]), input[1..]) == BitsAhead(c, input)
  {
    hide BitsOf, BytesBits, BitOr;
    ShiftInByte(c.buff, c.live, input[0]);
    BytesBitsFirst(input);
  }

  /** The byte machine does what the bit machine does. */
  lemma {:induction false} RunBytesIsRun(c: Config, input: seq<Byte>)
    requires Proper(c)
    ensures var (c', r') := RunBytes(c, input); Run(c.saved, BitsAhead(c, input)) == (c'.saved, BitsAhead(c', r'))
    decreases |input|, c.live
  {
    hide Step, Consume, Pull, BitsAhead, BitsOf, ValueOf, BytesBits, Sane;
    if Terminal(c.saved.core.at) {
    } else if Want(c.saved.core) <= c.live {
      ConsumeProper(c);
      ConsumeBits(c, input);
      RunBytesIsRun(Consume(c), input);
    } else if input == [] {
      TooFew(c);
    } else {
      WantSmall(c);
      PullProper(c, input[0]);
      PullBits(c, input);
      PullKeeps(c, input[0]);
      RunBytesIsRun(Pull(c, input[0]), input[1..]);
    }
  }

  lemma PullKeeps(c: Config, b: Byte)
    requires c.live <= 24
    ensures Pull(c, b).saved == c.saved
  {
  }

  lemma TooFew(c: Config)
    ensures |BitsAhead(c, [])| == c.live
  {
  }
}
