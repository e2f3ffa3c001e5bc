/** The small decoder's 20-bit pointers: sixteen bits in one array, four in
    half a byte of another. */
module SmallPointers {
  import opened Bits

  /** The half byte that belongs to pointer i. */
  function Nibble(x: Byte, i: int): (r: nat)
    ensures r < 16
  {
    (if i % 2 == 0 then x else x / 16) % 16
  }

  /** (x & 0xf0) | n or (x & 0x0f) | (n << 4). */
  function WithNibble(x: Byte, i: int, n: nat): nat {
    if i % 2 == 0 then BitOr(x / 16 * 16, n) else BitOr(n * 16, x % 16)
  }

  lemma WithNibbleFacts(x: Byte, i: int, n: nat)
    requires n < 16
    ensures WithNibble(x, i, n) < 256
    ensures Nibble(WithNibble(x, i, n), i) == n && Nibble(WithNibble(x, i, n), i + 1) == Nibble(x, i + 1)
  {
    hide BitOr;
    assert Pow2(4) == 16;
    if i % 2 == 0 {
      BitOrDisjoint(x / 16, n, 4);
      TwoNibbles(x / 16, n);
    } else {
      BitOrDisjoint(n, x % 16, 4);
      TwoNibbles(n, x % 16);
    }
  }

  lemma TwoNibbles(h: nat, l: nat)
    requires h < 16 && l < 16
    ensures h * 16 + l < 256 && (h * 16 + l) / 16 == h && (h * 16 + l) % 16 == l
  {
  }

  /** The pointers the two arrays hold together. */
  ghost function Pointers(l16: seq<Half>, l4: seq<Byte>, n: nat): (p: seq<int>)
    requires n <= |l16| && n <= 2 * |l4|
    ensures |p| == n && forall i :: 0 <= i < n ==> p[i] == Nibble(l4[i / 2], i) * 0x1_0000 + l16[i]
  {
    seq(n, i requires 0 <= i < n => Nibble(l4[i / 2], i) * 0x1_0000 + l16[i])
  }

  method SetLL(ll16: array<Half>, ll4: array<Byte>, i: int, p: int, ghost n: nat)
    requires ll16 as object != ll4 && n <= ll16.Length && n <= 2 * ll4.Length && 0 <= i < n && 0 <= p < 0x10_0000
    modifies ll16, ll4
    ensures Pointers(ll16[..], ll4[..], n) == old(Pointers(ll16[..], ll4[..], n))[i := p]
    ensures forall k :: 0 <= k < ll16.Length && k != i ==> ll16[k] == old(ll16[k])
  {
    hide WithNibble;
    ghost var p0 := Pointers(ll16[..], ll4[..], n);
    ghost var h0, l0 := ll16[..], ll4[..];
    WithNibbleFacts(ll4[i / 2], i, p / 0x1_0000);
    ll16[i] := p % 0x1_0000;
    ll4[i / 2] := WithNibble(ll4[i / 2], i, p / 0x1_0000);
    forall k | 0 <= k < n ensures Pointers(ll16[..], ll4[..], n)[k] == p0[i := p][k] {
      if k / 2 == i / 2 && k != i { assert k % 2 == (i + 1) % 2; }
      if k == i { assert p == p / 0x1_0000 * 0x1_0000 + p % 0x1_0000; }
    }
  }

  method GetLL(ll16: array<Half>, ll4: array<Byte>, i: int, ghost n: nat) returns (p: int)
    requires n <= ll16.Length && n <= 2 * ll4.Length && 0 <= i < n
    ensures p == Pointers(ll16[..], ll4[..], n)[i]
  {
    Pow2Constants();
    BitOrCommutes(ll16[i], Nibble(ll4[i / 2], i) * 0x1_0000);
    BitOrDisjoint(Nibble(ll4[i / 2], i), ll16[i], 16);
    p := BitOr(ll16[i], Nibble(ll4[i / 2], i) * 0x1_0000);
  }
}
