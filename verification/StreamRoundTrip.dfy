/** Compressing and decompressing, by any calls on both sides, gives back what was put in. */
module StreamRoundTrip {
  import opened Bits
  import opened BitStream
  import opened BlockBuilder
  import opened StreamFormat
  import opened StreamSize
  import DecompressMachine
  import DecompressStream

  /** One call of the compressor, and one of the decompressor. */
  datatype Put = Put(action: Action, bytes: seq<Byte>, room: nat)
  datatype Get = Get(count: nat, room: nat)

  /** What the first n calls hand over. */
  ghost function Given(puts: seq<Put>, n: nat): seq<Byte>
    requires n <= |puts|
  {
    if n == 0 then [] else Given(puts, n - 1) + puts[n - 1].bytes
  }

  lemma {:induction false} GivenMore(puts: seq<Put>, m: nat, n: nat)
    requires m <= n <= |puts|
    ensures Given(puts, m) <= Given(puts, n)
  {
    if m < n { GivenMore(puts, m, n - 1); }
  }

  /** A call that leaves the compressor ready for more input: a flush only if it has room to end. */
  ghost predicate Passes(p: Put, size: nat) {
    p.action == RUN || (p.action == FLUSH && p.room > size)
  }

  /** The calls up to the k-th are in order, and that one finishes the stream, with more room than size. */
  ghost predicate Finishes(puts: seq<Put>, k: nat, size: nat) {
    k < |puts| && puts[k].action == FINISH && puts[k].room > size && forall i :: 0 <= i < k ==> Passes(puts[i], size)
  }

  /** No call runs out of room. */
  ghost predicate Roomy(puts: seq<Put>, size: nat) {
    forall i :: 0 <= i < |puts| ==> puts[i].room > size
  }

  /** Where the compressor is after the first n calls, if they were in order: ready for more, with everything taken
      in, unless room was short. */
  ghost predicate Ready(puts: seq<Put>, n: nat, size: nat, mode: Mode, taken: seq<Byte>) {
    n <= |puts| && ((forall i :: 0 <= i < n ==> Passes(puts[i], size)) ==>
                      mode == Running && (Roomy(puts, size) ==> taken == Given(puts, n)))
  }

  /** What is true with more room than size' is true with more than size. */
  lemma LessRoom(puts: seq<Put>, n: nat, size: nat, size': nat)
    requires size <= size' && n <= |puts|
    ensures (forall i :: 0 <= i < n ==> Passes(puts[i], size')) ==> forall i :: 0 <= i < n ==> Passes(puts[i], size)
    ensures Roomy(puts, size') ==> Roomy(puts, size)
    ensures Finishes(puts, n, size') ==> Finishes(puts, n, size)
  {
  }

  ghost predicate NotYet(puts: seq<Put>, n: nat, size: nat) {
    forall k: nat :: k < n ==> !Finishes(puts, k, size)
  }

  lemma CallOn(puts: seq<Put>, i: nat, size: nat, size': nat, mode: Mode, mode': Mode, taken: seq<Byte>, used: nat,
      end: bool)
    requires i < |puts| && size <= size' && used <= |puts[i].bytes|
    requires Ready(puts, i, size, mode, taken) && NotYet(puts, i, size)
    requires mode == Running && Passes(puts[i], size') ==>
               mode' == Running && (puts[i].room > size' ==> used == |puts[i].bytes|)
    requires mode == Running && puts[i].action == FINISH && puts[i].room > size' ==> end
    requires end ==> puts[i].action == FINISH && used == |puts[i].bytes|
    ensures !end ==> Ready(puts, i + 1, size', mode', taken + puts[i].bytes[..used]) && NotYet(puts, i + 1, size')
    ensures end ==> forall k: nat :: Finishes(puts, k, size') && Roomy(puts, size') ==>
                                       taken + puts[i].bytes[..used] == Given(puts, k + 1)
  {
    LessRoom(puts, i, size, size');
    if end {
      assert !Passes(puts[i], size');
      forall k: nat | Finishes(puts, k, size') ensures k == i {
        LessRoom(puts, if k <= i then k else i, size, size');
      }
    } else {
      forall k: nat | k < i + 1 ensures !Finishes(puts, k, size') {
        LessRoom(puts, k, size, size');
      }
    }
  }

  /** The calls on the compressing side: what they took in, and what came out; done if the stream was finished. In
      order and with room, they do finish it, and take in all they are given. */
  method CompressAll(level: nat, workFactor: int, puts: seq<Put>) returns (done: bool, taken: seq<Byte>, z: seq<Byte>)
    requires 1 <= level <= 9
    ensures done ==> Encodes(z, level, taken)
    ensures |z| <= Most(|taken|) && |taken| <= |Given(puts, |puts|)|
    ensures forall k: nat :: Finishes(puts, k, |z|) ==> done && (Roomy(puts, |z|) ==> taken == Given(puts, k + 1))
  {
    hide EState.Valid, Encodes, Ready, NotYet, Passes, Roomy, Given, Finishes;
    var s := new EState(level, workFactor);
    done, taken, z := false, [], [];
    AtFirst(puts);
    for i := 0 to |puts|
      invariant s.Steady() && fresh(s) && fresh(s.block) && fresh(s.inUse) && fresh(s.back) && fresh(s.back.w)
                && s.back.level == level
      invariant s.consumed == taken && s.handed == z && !done && |taken| <= |Given(puts, i)|
      invariant Ready(puts, i, |z|, s.mode, taken) && NotYet(puts, i, |z|)
    {
      ghost var mode := s.mode;
      var answer, used, out := s.BzCompress(puts[i].action, puts[i].bytes, puts[i].room);
      Passing(puts[i], |z + out|);
      CallOn(puts, i, |z|, |z + out|, mode, s.mode, taken, used, answer == StreamEnd);
      taken := taken + puts[i].bytes[..used];
      z := z + out;
      GivenNext(puts, i);
      s.NotLong();
      if answer == StreamEnd { return true, taken, z; }
    }
    s.NotLong();
    NeverAfter(puts, |z|);
  }

  lemma GivenNext(puts: seq<Put>, i: nat)
    requires i < |puts|
    ensures Given(puts, i + 1) == Given(puts, i) + puts[i].bytes && |Given(puts, i + 1)| <= |Given(puts, |puts|)|
  {
    GivenMore(puts, i + 1, |puts|);
  }

  lemma AtFirst(puts: seq<Put>)
    ensures Ready(puts, 0, 0, Running, []) && NotYet(puts, 0, 0)
  {
  }

  lemma Passing(p: Put, size: nat)
    ensures Passes(p, size) ==> p.action == RUN || (p.action == FLUSH && p.room > size)
  {
  }

  lemma EnoughRoom(puts: seq<Put>, k: nat, size: nat, size': nat)
    requires Finishes(puts, k, size') && size <= size'
    ensures k < |puts| && Finishes(puts, k, size) && (Roomy(puts, size') ==> Roomy(puts, size))
  {
    LessRoom(puts, k, size, size');
  }

  lemma NeverAfter(puts: seq<Put>, size: nat)
    requires NotYet(puts, |puts|, size)
    ensures forall k: nat :: !Finishes(puts, k, size)
  {
  }

  /** Some call is handed all there is and has more room than there is to put out. */
  ghost predicate Ample(gets: seq<Get>, all: nat, size: nat) {
    exists i :: 0 <= i < |gets| && gets[i].count >= all && gets[i].room > size
  }

  /** The calls on the other side, on any stream of well-formed blocks: what they put out is what was compressed; they
      end well only if all checksums are right, and badly only if one is wrong; and they do end, unless input or room
      was short. */
  method DecompressAll(small: bool, z: seq<Byte>, gets: seq<Get>, ghost st: Stored)
    returns (done: bool, bad: bool, out: seq<Byte>)
    requires 1 <= st.level <= 9 && Fit(st) && StoredBits(st) <= BytesBits(z)
    ensures out <= Original(st.sents) && !(done && bad)
    ensures done ==> Right(st) && out == Original(st.sents)
    ensures bad ==> !Right(st)
    ensures Ample(gets, |z|, |Original(st.sents)|) ==> done || bad
  {
    hide DecompressStream.Inflow.Valid, DecompressStream.Inflow.Repr, Original, StoredBits, Fit, Right,
      DecompressStream.Inflow.WrongBlock, DecompressStream.Inflow.WrongTotal;
    var s := new DecompressStream.Inflow(small, z, st);
    var at := 0;
    done, bad, out := false, false, [];
    for i := 0 to |gets|
      invariant s.Valid() && fresh(s) && (forall x: object :: x in s.Repr() ==> fresh(x)) && s.z == z && s.st == st
      invariant s.delivered == at <= |z| && s.produced == out && out <= Original(st.sents) && !done && !bad
      invariant s.d.core.at != DecompressMachine.Idle
      invariant forall j :: 0 <= j < i ==> gets[j].count < |z| || gets[j].room <= |Original(st.sents)|
    {
      var n := if gets[i].count <= |z| - at then gets[i].count else |z| - at;
      assert z[at..at + n] <= z[at..];
      var answer, rest, more := s.BzDecompress(z[at..at + n], gets[i].room);
      out := out + more;
      at := at + n - |rest|;
      if answer == DecompressStream.StreamEnd { return true, false, out; }
      if answer == DecompressStream.DataError { return false, true, out; }
    }
  }

  /** decompress(compress(x)) == x: for every way of handing the input over, flushing and taking the output on the one
      side, at every block size and however the sorting is done, and every way of cutting the input and the room on
      the other, in both memory modes, and whatever follows the stream. */
  method RoundTrip(level: nat, workFactor: int, small: bool, puts: seq<Put>, gets: seq<Get>, after: seq<Byte>)
    returns (ended: bool, taken: seq<Byte>, z: seq<Byte>, finished: bool, out: seq<Byte>)
    requires 1 <= level <= 9
    ensures var size := Most(|Given(puts, |puts|)|);
            |z| <= size
            && forall k: nat :: Finishes(puts, k, size) ==>
                                  ended && (Roomy(puts, size) ==> taken == Given(puts, k + 1))
    ensures ended ==> Encodes(z, level, taken) && out <= taken && (finished ==> out == taken)
    ensures ended && Ample(gets, |z| + |after|, |taken|) ==> finished
  {
    hide AllGood, StreamBits, StoredBits, BytesBits, Original, Ample, Finishes, Roomy, Given, Right, Rightly;
    ended, taken, z := CompressAll(level, workFactor, puts);
    ghost var size := Most(|Given(puts, |puts|)|);
    forall k: nat | Finishes(puts, k, size)
      ensures k < |puts| && ended && (Roomy(puts, size) ==> taken == Given(puts, k + 1))
    {
      EnoughRoom(puts, k, |z|, size);
    }
    finished, out := false, [];
    if ended {
      ghost var sents :| AllGood(sents, level) && Original(sents) == taken && Padded(StreamBits(sents, level), z);
      BytesBitsConcat(z, after);
      RightlyBits(sents, level);
      var bad;
      finished, bad, out := DecompressAll(small, z + after, gets, Rightly(sents, level));
    }
  }
}
