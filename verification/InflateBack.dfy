/** inflateBack's output window: the window is the output buffer, handed on each time it is full. */
module InflateBack {
  import opened Bits
  import opened LzTokens

  /** How many full windows are handed on while n bytes are put out. */
  ghost function Windows(n: nat, left: nat, wsize: nat): nat
    requires wsize > 0
    decreases n, if left == 0 then 1 else 0
  {
    if n <= left then 0 else 1 + Windows(n - left, wsize, wsize)
  }

  /** A copy goes on where it stopped. */
  lemma {:induction false} CopyOn(s: seq<Byte>, offset: nat, a: nat, b: nat)
    requires 1 <= offset <= |s|
    ensures |CopyBack(s, offset, a)| == |s| + a
    ensures CopyBack(CopyBack(s, offset, a), offset, b) == CopyBack(s, offset, a + b)
    decreases a
  {
    if a > 0 { CopyOn(s + [s[|s| - offset]], offset, a - 1, b); }
  }

  class OutputWindow {
    const window: array<Byte>
    var grants: nat  // how many windows the caller's function will take before it refuses
    var left: nat
    var whave: nat
    var sent: seq<Byte>

    function Put(): int
      reads this
    {
      window.Length - left
    }

    /** All bytes put out so far. */
    ghost function History(): seq<Byte>
      requires left <= window.Length
      reads this, window
    {
      sent + window[..Put()]
    }

    /** What lies ahead of the write position is the output of the round before. */
    ghost predicate Valid(): (v: bool)
      reads this, window
      ensures v ==> left <= window.Length
    {
      && left <= window.Length && 0 < window.Length
      && (whave >= window.Length ==> |sent| >= left && window[Put()..] == sent[|sent| - left..])
      && (whave < window.Length ==> sent == [])
    }

    /** How far back a match may reach. */
    function Reach(): int
      reads this
    {
      window.Length - (if whave < window.Length then left else 0)
    }

    constructor (wsize: nat, grants: nat)
      requires wsize > 0
      ensures Valid() && History() == [] && window.Length == wsize && fresh(window) && this.grants == grants
    {
      this.grants := grants;
      window := new Byte[wsize](_ => 0);
      left, whave, sent := wsize, 0, [];
    }

    /** ROOM: hands a full window on; the caller's function may refuse it. */
    method Room() returns (ok: bool)
      requires Valid()
      modifies this
      ensures Valid() && History() == old(History()) && (ok ==> left > 0) && Reach() >= old(Reach())
      ensures ok <==> old(left > 0 || grants > 0)
      ensures if old(left) > 0 then left == old(left) && grants == old(grants) else left == window.Length
      ensures old(left) == 0 && ok ==> grants == old(grants) - 1
    {
      ok := true;
      if left == 0 {
        ghost var sent0, w := sent, window[..];
        assert window[..Put()] == w;
        sent := sent + window[..];
        left := window.Length;
        whave := window.Length;
        assert window[..Put()] == [] && window[Put()..] == w && sent[|sent| - left..] == w;
        assert History() == sent0 + w;
        ok := grants > 0;
        if ok { grants := grants - 1; }
      }
    }

    /** A literal. */
    method PutByte(b: Byte) returns (ok: bool)
      requires Valid()
      modifies this, window
      ensures Valid() && (ok ==> History() == old(History()) + [b])
      ensures ok <==> old(left > 0 || grants > 0)
      ensures !ok ==> History() == old(History())
    {
      ok := Room();
      if ok { Store(b); }
    }

    method Store(b: Byte)
      requires Valid() && left > 0
      modifies this`left, window
      ensures Valid() && History() == old(History()) + [b] && left == old(left) - 1
    {
      ghost var w, put := window[..], Put();
      window[Put()] := b;
      left := left - 1;
      assert window[..Put()] == w[..put] + [b];
      assert window[Put()..] == w[put..][1..];
    }

    /** The byte offset back, wherever it lies in the window. */
    lemma Behind(offset: nat)
      requires Valid() && 1 <= offset <= Reach() && left > 0
      ensures offset <= |History()|
      ensures var from := if offset <= Put() then Put() - offset else Put() + window.Length - offset;
              0 <= from < window.Length && window[from] == History()[|History()| - offset]
    {
      if offset > Put() {
        var from := Put() + window.Length - offset;
        assert window[Put()..][from - Put()] == window[from];
      }
    }

    lemma CopyOne(offset: nat, len: nat)
      requires Valid() && 1 <= offset <= |History()| && len > 0
      ensures CopyBack(History(), offset, len) == CopyBack(History() + [History()[|History()| - offset]], offset,
                                                           len - 1)
    {
    }

    /** A stretch without a turn: neither the source nor the write position reaches the window's end before its last
        byte. */
    method CopyStretch(offset: nat, from0: nat, count: nat)
      requires Valid() && 1 <= offset <= Reach() && offset <= |History()| && 0 < count <= left
      requires from0 == (if offset <= Put() then Put() - offset else Put() + window.Length - offset)
               && from0 + count <= window.Length
      modifies this`left, window
      ensures Valid() && offset <= Reach() && offset <= |History()| && left == old(left) - count
      ensures History() == CopyBack(old(History()), offset, count)
    {
      hide Valid, History, CopyBack;
      ghost var h0 := History();
      var from, copy := from0, count;
      while copy > 0
        invariant Valid() && offset <= Reach() && offset <= |History()| && 0 <= copy <= left
                  && left - copy == old(left) - count
        invariant copy > 0 ==>
                    from == (if offset <= Put() then Put() - offset else Put() + window.Length - offset)
                    && from + copy <= window.Length
        invariant CopyBack(History(), offset, copy) == CopyBack(h0, offset, count)
        decreases copy
      {
        Behind(offset);
        CopyOne(offset, copy);
        Store(window[from]);
        from, copy := from + 1, copy - 1;
      }
      CopyNone(offset);
    }

    /** The copy loop: stretches up to the end of the window, or to where the source wraps round. */
    method CopyMatch(offset: nat, length: nat) returns (ok: bool)
      requires Valid() && 1 <= offset <= Reach() && length > 0
      modifies this, window
      ensures Valid() && offset <= |old(History())|
      ensures ok <==> old(grants) >= Windows(length, old(left), window.Length)
      ensures ok ==> History() == CopyBack(old(History()), offset, length)
      ensures !ok ==> exists n: nat :: n < length && History() == CopyBack(old(History()), offset, n)
    {
      hide CopyBack, History, Valid;
      ghost var h0 := History();
      Reaches(offset);
      CopyNone(offset);
      var len := length;
      while true
        invariant Valid() && 1 <= offset <= Reach() && 0 < len <= length && offset <= |History()| && offset <= |h0|
        invariant History() == CopyBack(h0, offset, length - len)
        invariant old(grants) - grants + Windows(len, left, window.Length) == Windows(length, old(left), window.Length)
        decreases len
      {
        ok := Room();
        if !ok { return; }
        Reaches(offset);
        var copy := window.Length - offset;
        var from;
        if copy < left {
          from := Put() + copy;
          copy := left - copy;
        } else {
          from := Put() - offset;
          copy := left;
        }
        if copy > len { copy := len; }
        len := len - copy;
        CopyStretch(offset, from, copy);
        CopyOn(h0, offset, length - len - copy, copy);
        if len == 0 { break; }
      }
    }

    lemma CopyNone(offset: nat)
      requires Valid() && 1 <= offset <= |History()|
      ensures CopyBack(History(), offset, 0) == History()
    {
    }

    lemma Reaches(offset: nat)
      requires Valid() && offset <= Reach()
      ensures left <= window.Length && offset <= |History()| && Reach() <= window.Length
    {
    }
  }
}
