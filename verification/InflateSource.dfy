/** The decoder's bit accumulator over its input, as a window on one stream of bits. */
module InflateSource {
  import opened Bits
  import opened Reversal
  import opened InflateTable

  /** Bytes as a number, first byte lowest. */
  ghost function Packed(s: seq<Byte>): nat {
    if s == [] then 0 else s[0] + 256 * Packed(s[1..])
  }

  lemma {:induction false} ByteAt(s: seq<Byte>, i: nat)
    requires i < |s|
    ensures Low(High(Packed(s), 8 * i), 8) == s[i]
    decreases i
  {
    Pow2Constants();
    PartsAre(Packed(s), 8, Packed(s[1..]), s[0]);
    hide Low, High, Pow2;
    if i == 0 {
      NoShift(Packed(s));
    } else {
      ByteAt(s[1..], i - 1);
      HighHigh(Packed(s), 8, 8 * (i - 1));
    }
  }

  /** bits bits held back, and then the input. */
  ghost function Stream(hold: nat, bits: nat, input: seq<Byte>): nat {
    hold + Packed(input) * Pow2(bits)
  }

  lemma StreamByte(hold: nat, bits: nat, input: seq<Byte>, i: nat)
    requires hold < Pow2(bits) && i < |input|
    ensures Low(High(Stream(hold, bits, input), bits + 8 * i), 8) == input[i]
  {
    PartsAre(Stream(hold, bits, input), bits, Packed(input), hold);
    hide Low, High, Pow2;
    ByteAt(input, i);
    HighHigh(Stream(hold, bits, input), bits, 8 * i);
  }

  lemma {:induction false} LowJoin(x: nat, a: nat, b: nat)
    ensures Low(x, a + b) == Low(x, a) + Low(High(x, a), b) * Pow2(a)
    decreases a
  {
    if a > 0 {
      LowJoin(x / 2, a - 1, b);
      LowHalves(x, a + b);
      LowHalves(x, a);
      BitTimes(Low(High(x, a), b), Pow2(a - 1));
    }
  }

  class BitSource {
    const input: seq<Byte>
    const hold0: nat
    const bits0: nat
    var hold: nat
    var bits: nat
    var nextIn: nat
    ghost var used: nat

    ghost function T(): nat { Stream(hold0, bits0, input) }

    /** hold is the bits next in the stream; none is lost and none is read twice. */
    ghost predicate Valid()
      reads this
    {
      && hold0 < Pow2(bits0) && nextIn <= |input| && used + bits == bits0 + 8 * nextIn
      && hold == Low(High(T(), used), bits)
    }

    ghost function Rest(): nat
      reads this
    {
      High(T(), used)
    }

    constructor (hold: nat, bits: nat, input: seq<Byte>)
      requires hold < Pow2(bits)
      ensures Valid() && this.input == input && bits0 == bits && nextIn == 0 && used == 0 && this.bits == bits
              && this.hold == hold == hold0
    {
      this.input, hold0, bits0 := input, hold, bits;
      this.hold, this.bits, nextIn, used := hold, bits, 0, 0;
      new;
      PartsAre(T(), bits, Packed(input), hold);
      NoShift(T());
    }

    /** One more byte into the accumulator, which holds at most 32 bits. */
    method PullByte()
      requires Valid() && nextIn < |input| && bits <= 24
      modifies this
      ensures Valid() && bits == old(bits) + 8 && nextIn == old(nextIn) + 1 && used == old(used) && hold < Pow2(32)
    {
      hide Low, High, Pow2, Stream;
      StreamByte(hold0, bits0, input, nextIn);
      HighHigh(T(), used, bits);
      LowJoin(Rest(), bits, 8);
      hold := hold + input[nextIn] * Pow2(bits);
      nextIn := nextIn + 1;
      bits := bits + 8;
      LowBelow(Rest(), bits);
      Pow2Monotone(bits, 32);
    }

    /** Drops n bits that have been used. */
    method Drop(n: nat)
      requires Valid() && n <= bits
      modifies this
      ensures Valid() && bits == old(bits) - n && used == old(used) + n && nextIn == old(nextIn)
              && Rest() == High(old(Rest()), n)
    {
      hide Low, High, Pow2, Stream;
      HighOfLow(Rest(), bits, n);
      HighHigh(T(), used, n);
      hold := High(hold, n);
      bits := bits - n;
      used := used + n;
    }

    lemma Balance()
      requires Valid()
      ensures used + bits == bits0 + 8 * nextIn && nextIn <= |input|
    {
    }

    /** The first k bits held are the first k of the stream. */
    lemma Peek(k: nat)
      requires Valid() && k <= bits
      ensures Low(hold, k) == Low(Rest(), k)
    {
      hide Low, High, Pow2, Stream;
      LowLow(Rest(), bits, k);
    }

    /** Gives whole unused bytes back to the input. */
    method ReturnBytes()
      requires Valid() && bits0 < 8
      modifies this
      ensures Valid() && bits < 8 && used == old(used) && bits == old(bits) % 8 && nextIn == old(nextIn) - old(bits) / 8
    {
      hide Low, High, Pow2, Stream;
      var len := bits / 8;
      nextIn := nextIn - len;
      LowLow(Rest(), bits, bits - 8 * len);
      bits := bits - 8 * len;
      hold := Low(hold, bits);
    }
  }
}
