/** Hash chains over a sliding window: each head and each link leads to an earlier
    string with the same key, the latest there is, or is too old to be followed. */
module HashChains {
  import opened Bits
  import opened Sequences
  import opened RollingHash

  /** The three bytes at v. */
  ghost function KeyAt(h: Hashing, w: seq<Byte>, v: nat): nat
    requires v + 2 < |w|
  {
    Three(h, w[v], w[v + 1], w[v + 2])
  }

  /** Where the link of position v is kept: v & w_mask. */
  function Slot(wsize: nat, v: nat): nat
    requires v < 2 * wsize
  {
    if v < wsize then v else v - wsize
  }

  /** An inserted string has the key it was inserted under; zero ends a chain. */
  ghost predicate Under(h: Hashing, w: seq<Byte>, ins: set<nat>, v: nat, key: nat) {
    v == 0 || (v in ins && v + 2 < |w| && KeyAt(h, w, v) == key)
  }

  /** No inserted string between u and v has this key. */
  ghost predicate NoneBetween(h: Hashing, w: seq<Byte>, ins: set<nat>, u: nat, v: nat, key: nat) {
    forall t: nat :: t in ins && u < t < v ==> t + 2 < |w| && KeyAt(h, w, t) != key
  }

  /** The link at v, while it has not been overwritten. */
  ghost predicate Links(h: Hashing, wsize: nat, w: seq<Byte>, prev: seq<nat>, ins: set<nat>, v: nat)
    requires v < 2 * wsize == |w| && |prev| == wsize
  {
    v + 2 < |w| && prev[Slot(wsize, v)] < v && Under(h, w, ins, prev[Slot(wsize, v)], KeyAt(h, w, v))
      && NoneBetween(h, w, ins, prev[Slot(wsize, v)], v, KeyAt(h, w, v))
  }

  /** cur is the position reached, top the end of the data, lim bounds the inserted strings. */
  ghost predicate Chained(h: Hashing, wsize: nat, w: seq<Byte>, head: seq<nat>, prev: seq<nat>, ins: set<nat>, cur: nat,
      lim: nat, top: nat)
  {
    && |w| == 2 * wsize && |prev| == wsize && |head| == Pow2(h.bits) && top <= 2 * wsize
    && (forall v :: v in ins ==> 0 < v < lim && v + 2 < top)
    && (forall k :: 0 <= k < |head| ==> Under(h, w, ins, head[k], k) && NoneBetween(h, w, ins, head[k], |w|, k))
    && (forall v :: v in ins && v + wsize > cur ==> v < 2 * wsize && Links(h, wsize, w, prev, ins, v))
  }

  /** Moving on, reading more, or clearing unused bytes. */
  lemma ChainsStay(h: Hashing, wsize: nat, w: seq<Byte>, w': seq<Byte>, head: seq<nat>, prev: seq<nat>, ins: set<nat>,
      cur: nat, cur': nat, lim: nat, lim': nat, top: nat, top': nat)
    requires Chained(h, wsize, w, head, prev, ins, cur, lim, top) && SameBefore(w, w', top)
    requires cur <= cur' && lim <= lim' && top <= top' <= 2 * wsize
    ensures Chained(h, wsize, w', head, prev, ins, cur', lim', top')
  {
    hide Three, Pow2;
    forall v | v in ins && v + wsize > cur' ensures v < 2 * wsize && Links(h, wsize, w', prev, ins, v) {
      assert Links(h, wsize, w, prev, ins, v);
    }
    forall k | 0 <= k < |head| ensures Under(h, w', ins, head[k], k) && NoneBetween(h, w', ins, head[k], |w'|, k) {
      assert Under(h, w, ins, head[k], k) && NoneBetween(h, w, ins, head[k], |w|, k);
    }
  }

  /** INSERT_STRING. */
  lemma ChainsInsert(h: Hashing, wsize: nat, w: seq<Byte>, head: seq<nat>, prev: seq<nat>, ins: set<nat>, cur: nat,
      str: nat, top: nat, key: nat)
    requires Chained(h, wsize, w, head, prev, ins, cur, str, top) && str <= cur && str + 2 < top
    requires key == KeyAt(h, w, str) < Pow2(h.bits)
    ensures Under(h, w, ins, head[key], key) && head[key] <= str && (head[key] == str ==> str == 0)
    ensures var ins' := if str == 0 then ins else ins + {str};
            Chained(h, wsize, w, head[key := str], prev[Slot(wsize, str) := head[key]], ins', cur, str + 1, top)
  {
    hide Three, Pow2;
    var ins' := if str == 0 then ins else ins + {str};
    var head', prev' := head[key := str], prev[Slot(wsize, str) := head[key]];
    assert Under(h, w, ins, head[key], key);
    forall k | 0 <= k < |head'| ensures Under(h, w, ins', head'[k], k) && NoneBetween(h, w, ins', head'[k], |w|, k) {
      assert Under(h, w, ins, head[k], k) && NoneBetween(h, w, ins, head[k], |w|, k);
    }
    forall v | v in ins' && v + wsize > cur ensures v < 2 * wsize && Links(h, wsize, w, prev', ins', v) {
      if v != str {
        assert Links(h, wsize, w, prev, ins, v);
        assert Slot(wsize, v) != Slot(wsize, str);
      }
    }
  }

  /** A table entry after the window has moved down. */
  function Slid(wsize: nat, m: nat): nat {
    if m >= wsize then m - wsize else 0
  }

  ghost function SlidSet(wsize: nat, ins: set<nat>): (r: set<nat>)
    ensures forall v: nat :: v in r <==> v > 0 && v + wsize in ins
  {
    set v | v in ins && v > wsize :: v - wsize
  }

  lemma SlidUnder(h: Hashing, wsize: nat, w: seq<Byte>, w': seq<Byte>, ins: set<nat>, v: nat, key: nat)
    requires |w| == |w'| == 2 * wsize && (forall i :: 0 <= i < wsize ==> w'[i] == w[i + wsize])
    requires Under(h, w, ins, v, key)
    ensures Under(h, w', SlidSet(wsize, ins), Slid(wsize, v), key)
  {
    hide Three;
    if v > wsize {
      var u := v - wsize;
      assert u in SlidSet(wsize, ins);
      assert w'[u] == w[u + wsize] && w'[u + 1] == w[u + 1 + wsize] && w'[u + 2] == w[u + 2 + wsize];
    }
  }

  lemma SlidNone(h: Hashing, wsize: nat, w: seq<Byte>, w': seq<Byte>, ins: set<nat>, u: nat, v: nat, key: nat)
    requires |w| == |w'| == 2 * wsize && (forall i :: 0 <= i < wsize ==> w'[i] == w[i + wsize])
    requires NoneBetween(h, w, ins, u, v, key) && v >= wsize && forall t :: t in ins ==> t < v || t + 2 < |w|
    ensures NoneBetween(h, w', SlidSet(wsize, ins), Slid(wsize, u), v - wsize, key)
  {
    hide Three;
    forall t: nat | t in SlidSet(wsize, ins) && Slid(wsize, u) < t < v - wsize
      ensures t + 2 < |w'| && KeyAt(h, w', t) != key
    {
      assert t + wsize in ins && u < t + wsize < v;
      assert w'[t] == w[t + wsize] && w'[t + 1] == w[t + 1 + wsize] && w'[t + 2] == w[t + 2 + wsize];
    }
  }

  /** The slide of fill_window keeps the chains. */
  lemma ChainsSlide(h: Hashing, wsize: nat, w: seq<Byte>, w': seq<Byte>, head: seq<nat>, head': seq<nat>,
      prev: seq<nat>, prev': seq<nat>, ins: set<nat>, cur: nat, lim: nat, top: nat)
    requires Chained(h, wsize, w, head, prev, ins, cur, lim, top) && wsize <= cur && wsize <= lim && wsize <= top
    requires |w'| == |w| && |head'| == |head| && |prev'| == |prev|
             && (forall i :: 0 <= i < wsize ==> w'[i] == w[i + wsize])
    requires forall k :: 0 <= k < |head| ==> head'[k] == Slid(wsize, head[k])
    requires forall k :: 0 <= k < |prev| ==> prev'[k] == Slid(wsize, prev[k])
    ensures Chained(h, wsize, w', head', prev', SlidSet(wsize, ins), cur - wsize, lim - wsize, top - wsize)
  {
    hide Three, Pow2;
    var ins' := SlidSet(wsize, ins);
    forall k | 0 <= k < |head'| ensures Under(h, w', ins', head'[k], k) && NoneBetween(h, w', ins', head'[k], |w'|, k) {
      assert Under(h, w, ins, head[k], k) && NoneBetween(h, w, ins, head[k], |w|, k);
      SlidUnder(h, wsize, w, w', ins, head[k], k);
      SlidNone(h, wsize, w, w', ins, head[k], |w|, k);
    }
    forall v: nat | v in ins' ensures 0 < v < lim - wsize && v + 2 < top - wsize { assert v + wsize in ins; }
    forall v: nat | v in ins' && v + wsize > cur - wsize ensures v < 2 * wsize && Links(h, wsize, w', prev', ins', v) {
      var u := v + wsize;
      assert u in ins;
      assert Links(h, wsize, w, prev, ins, u);
      assert Slot(wsize, u) == Slot(wsize, v);
      SlidUnder(h, wsize, w, w', ins, u, KeyAt(h, w, u));
      SlidUnder(h, wsize, w, w', ins, prev[Slot(wsize, u)], KeyAt(h, w, u));
      SlidNone(h, wsize, w, w', ins, prev[Slot(wsize, u)], u, KeyAt(h, w, u));
    }
  }

  /** One link further. */
  lemma FollowLink(h: Hashing, wsize: nat, w: seq<Byte>, head: seq<nat>, prev: seq<nat>, ins: set<nat>, cur: nat,
      lim: nat, top: nat, v: nat)
    requires Chained(h, wsize, w, head, prev, ins, cur, lim, top) && v in ins && v + wsize > cur
    ensures v < 2 * wsize && v + 2 < top && prev[Slot(wsize, v)] < v
            && Under(h, w, ins, prev[Slot(wsize, v)], KeyAt(h, w, v))
            && NoneBetween(h, w, ins, prev[Slot(wsize, v)], v, KeyAt(h, w, v))
  {
    assert Links(h, wsize, w, prev, ins, v);
  }

  /** Nothing inserted: any links will do. */
  lemma ChainsEmpty(h: Hashing, wsize: nat, w: seq<Byte>, head: seq<nat>, prev: seq<nat>, cur: nat, lim: nat, top: nat)
    requires |w| == 2 * wsize && |prev| == wsize && |head| == Pow2(h.bits) && top <= 2 * wsize
    requires forall k :: 0 <= k < |head| ==> head[k] == 0
    ensures Chained(h, wsize, w, head, prev, {}, cur, lim, top)
  {
  }
}
