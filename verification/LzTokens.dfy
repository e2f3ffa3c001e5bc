/** What literals and (distance, length) pairs mean: section 3.2.3 of RFC 1951. */
module LzTokens {
  import opened Bits

  const MIN_MATCH := 3
  const MAX_MATCH := 258

  datatype Token = Lit(b: Byte) | Match(dist: nat, len: nat)

  /** Repeats bytes from dist back, one at a time: source and copy may overlap. */
  ghost function CopyBack(s: seq<Byte>, dist: nat, len: nat): (r: seq<Byte>)
    requires 1 <= dist <= |s|
    decreases len
  {
    if len == 0 then s else CopyBack(s + [s[|s| - dist]], dist, len - 1)
  }

  /** A pair that reaches back before the start means nothing. */
  ghost function Apply(s: seq<Byte>, t: Token): seq<Byte> {
    match t
    case Lit(b) => s + [b]
    case Match(dist, len) => if 1 <= dist <= |s| then CopyBack(s, dist, len) else s
  }

  ghost function Decode(ts: seq<Token>): seq<Byte> {
    if ts == [] then [] else Apply(Decode(ts[..|ts| - 1]), ts[|ts| - 1])
  }

  ghost predicate Encodable(t: Token, maxDist: nat) {
    t.Match? ==> MIN_MATCH <= t.len <= MAX_MATCH && 1 <= t.dist <= maxDist
  }

  ghost predicate AllEncodable(ts: seq<Token>, maxDist: nat) {
    forall i :: 0 <= i < |ts| ==> Encodable(ts[i], maxDist)
  }

  /** In the data, the len bytes at n repeat those dist back. */
  ghost predicate Repeats(data: seq<Byte>, n: nat, dist: nat, len: nat) {
    && 1 <= dist <= n && n + len <= |data|
    && forall k :: n <= k < n + len ==> data[k] == data[k - dist]
  }

  lemma {:induction false} CopyIs(data: seq<Byte>, n: nat, dist: nat, len: nat)
    requires Repeats(data, n, dist, len)
    ensures CopyBack(data[..n], dist, len) == data[..n + len]
    decreases len
  {
    if len > 0 {
      assert data[..n] + [data[..n][n - dist]] == data[..n + 1];
      CopyIs(data, n + 1, dist, len - 1);
    }
  }

  lemma DecodeLit(ts: seq<Token>, data: seq<Byte>, n: nat, maxDist: nat)
    requires n < |data| && Decode(ts) == data[..n] && AllEncodable(ts, maxDist)
    ensures Decode(ts + [Lit(data[n])]) == data[..n + 1] && AllEncodable(ts + [Lit(data[n])], maxDist)
  {
    var ts' := ts + [Lit(data[n])];
    assert ts'[..|ts' | - 1] == ts;
    assert data[..n] + [data[n]] == data[..n + 1];
  }

  lemma DecodeMatch(ts: seq<Token>, data: seq<Byte>, n: nat, dist: nat, len: nat, maxDist: nat)
    requires Repeats(data, n, dist, len) && Decode(ts) == data[..n] && AllEncodable(ts, maxDist)
             && Encodable(Match(dist, len), maxDist)
    ensures Decode(ts + [Match(dist, len)]) == data[..n + len] && AllEncodable(ts + [Match(dist, len)], maxDist)
  {
    var ts' := ts + [Match(dist, len)];
    assert ts'[..|ts' | - 1] == ts;
    CopyIs(data, n, dist, len);
  }

  lemma {:induction false} DecodeGrows(a: seq<Token>, b: seq<Token>)
    ensures Decode(a) <= Decode(a + b)
  {
    if b == [] {
      assert a + b == a;
    } else {
      var k := |b| - 1;
      DecodeGrows(a, b[..k]);
      assert (a + b)[..|a + b| - 1] == a + b[..k];
      ApplyGrows(Decode(a + b[..k]), b[k]);
    }
  }

  lemma ApplyGrows(s: seq<Byte>, t: Token)
    ensures s <= Apply(s, t)
  {
    if t.Match? && 1 <= t.dist <= |s| { CopyGrows(s, t.dist, t.len); }
  }

  lemma {:induction false} CopyGrows(s: seq<Byte>, dist: nat, len: nat)
    requires 1 <= dist <= |s|
    ensures s <= CopyBack(s, dist, len)
    decreases len
  {
    if len > 0 { CopyGrows(s + [s[|s| - dist]], dist, len - 1); }
  }
}
