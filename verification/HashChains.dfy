/** The string dictionary of deflate.c as values: what `head` and `prev` say
    about the text, and why insertion and the slide keep it.  Positions in
    the tables are window indices; `base` is the text offset of index 0. */
module HashChains {
  import opened Bits
  import opened RollingHash
  import Arith

  const NIL: nat := 0

  function KeyAt(l: Level, text: seq<byte>, p: nat): nat
    requires p + 3 <= |text|
  {
    Hash3(l, text[p], text[p + 1], text[p + 2])
  }

  /** Recorded positions are below `top` and have three bytes of text. */
  ghost predicate InText(text: seq<byte>, ins: set<nat>, top: nat)
  {
    forall p :: p in ins ==> p < top && p + 3 <= |text|
  }

  /** Each head is NIL or a recorded position whose key selects that head. */
  ghost predicate HeadsOk(l: Level, head: seq<nat>, text: seq<byte>, ins: set<nat>, base: nat)
    requires forall p :: p in ins ==> p + 3 <= |text|
  {
    && |head| == HashSize(l)
    && forall h :: 0 <= h < |head| && head[h] != NIL ==>
         base + head[h] in ins && KeyAt(l, text, base + head[h]) == h
  }

  /** The link of each recorded position among the last |prev| ones is NIL or
      an earlier recorded position with the same key. */
  ghost predicate LinksOk(l: Level, prev: seq<nat>, text: seq<byte>, ins: set<nat>, base: nat, top: nat)
    requires forall p :: p in ins ==> p + 3 <= |text|
  {
    && |prev| > 0
    && forall p {:trigger LinkOf(prev, base, p)} :: p in ins && base <= p && top <= p + |prev| ==>
         GoodLink(l, text, ins, base, p, LinkOf(prev, base, p))
  }

  function LinkOf(prev: seq<nat>, base: nat, p: nat): nat
    requires |prev| > 0 && base <= p
  {
    prev[(p - base) % |prev|]
  }

  ghost predicate GoodLink(l: Level, text: seq<byte>, ins: set<nat>, base: nat, p: nat, q: nat)
    requires forall p :: p in ins ==> p + 3 <= |text|
    requires p in ins
  {
    q != NIL ==> base + q < p && base + q in ins && KeyAt(l, text, base + q) == KeyAt(l, text, p)
  }

  /** The dictionary invariant. */
  ghost predicate ChainsOk(l: Level, head: seq<nat>, prev: seq<nat>, text: seq<byte>, ins: set<nat>, base: nat, top: nat)
  {
    InText(text, ins, top) && HeadsOk(l, head, text, ins, base) && LinksOk(l, prev, text, ins, base, top)
  }

  /** More text, or positions passed over without being recorded, change nothing. */
  lemma ChainsGrow(l: Level, head: seq<nat>, prev: seq<nat>, text: seq<byte>, more: seq<byte>, ins: set<nat>, base: nat, top: nat, top': nat)
    requires ChainsOk(l, head, prev, text, ins, base, top) && top <= top'
    ensures ChainsOk(l, head, prev, text + more, ins, base, top')
  {
    hide Hash3, HashSize;
    assert forall p :: p in ins ==> KeyAt(l, text + more, p) == KeyAt(l, text, p);
  }

  /** Reading a head gives NIL or a recorded string with the looked-up key. */
  lemma HeadIsCandidate(l: Level, head: seq<nat>, prev: seq<nat>, text: seq<byte>, ins: set<nat>, base: nat, s: nat, key: nat)
    requires ChainsOk(l, head, prev, text, ins, base, base + s)
    requires key < |head|
    ensures Candidate(l, text, ins, base, s, key, head[key])
  {
    hide Hash3, HashSize, LinksOk;
  }

  /** Following a link from a recent candidate gives NIL or an earlier one. */
  lemma LinkIsCandidate(l: Level, head: seq<nat>, prev: seq<nat>, text: seq<byte>, ins: set<nat>, base: nat, top: nat, p: nat, key: nat)
    requires ChainsOk(l, head, prev, text, ins, base, top)
    requires p != NIL && base + p in ins && top <= base + p + |prev| && KeyAt(l, text, base + p) == key
    ensures Candidate(l, text, ins, base, p, key, prev[p % |prev|])
  {
    hide Hash3, HashSize, HeadsOk;
    assert GoodLink(l, text, ins, base, base + p, LinkOf(prev, base, base + p));
  }

  /** q is NIL or a recorded string before s with the given key. */
  ghost predicate Candidate(l: Level, text: seq<byte>, ins: set<nat>, base: nat, s: nat, key: nat, q: nat)
  {
    q != NIL ==> q < s && base + q in ins && base + q + 3 <= |text| && KeyAt(l, text, base + q) == key
  }

  /** INSERT_STRING at `top`: the new head's link is the old head. */
  lemma InsertKeepsChains(l: Level, head: seq<nat>, prev: seq<nat>, text: seq<byte>, ins: set<nat>, base: nat, s: nat, h: nat)
    requires ChainsOk(l, head, prev, text, ins, base, base + s)
    requires base + s + 3 <= |text| && h == KeyAt(l, text, base + s) < |head|
    ensures ChainsOk(l, head[h := s], prev[s % |prev| := head[h]], text, ins + {base + s}, base, base + s + 1)
  {
    hide Hash3, HashSize;
    var prev' := prev[s % |prev| := head[h]];
    var ins' := ins + {base + s};
    forall p | p in ins' && base <= p && base + s + 1 <= p + |prev|
      ensures GoodLink(l, text, ins', base, p, LinkOf(prev', base, p))
    {
      if p == base + s {
      } else {
        Arith.DistinctSlots(p - base, s, |prev|);
        assert LinkOf(prev', base, p) == LinkOf(prev, base, p);
      }
    }
  }

  /** One entry of `head` or `prev` after the window slides down by `w`. */
  function Slid(m: nat, w: nat): nat { if m >= w then m - w else NIL }

  function SlidTable(t: seq<nat>, w: nat): (r: seq<nat>)
    ensures |r| == |t| && forall i :: 0 <= i < |t| ==> r[i] == Slid(t[i], w)
  {
    seq(|t|, i requires 0 <= i < |t| => Slid(t[i], w))
  }

  lemma SlideKeepsHeads(l: Level, head: seq<nat>, text: seq<byte>, ins: set<nat>, base: nat, w: nat)
    requires forall p :: p in ins ==> p + 3 <= |text|
    requires HeadsOk(l, head, text, ins, base)
    ensures HeadsOk(l, SlidTable(head, w), text, ins, base + w)
  {
    hide Hash3, HashSize, KeyAt;
    var head' := SlidTable(head, w);
    forall h | 0 <= h < |head'| && head'[h] != NIL
      ensures base + w + head'[h] in ins && KeyAt(l, text, base + w + head'[h]) == h
    {
      assert base + w + head'[h] == base + head[h];
    }
  }

  lemma SlideKeepsLinks(l: Level, prev: seq<nat>, text: seq<byte>, ins: set<nat>, base: nat, top: nat)
    requires forall p :: p in ins ==> p + 3 <= |text|
    requires LinksOk(l, prev, text, ins, base, top)
    ensures LinksOk(l, SlidTable(prev, |prev|), text, ins, base + |prev|, top)
  {
    hide Hash3, KeyAt;
    var w := |prev|;
    forall p | p in ins && base + w <= p && top <= p + w
      ensures GoodLink(l, text, ins, base + w, p, LinkOf(SlidTable(prev, w), base + w, p))
    {
      Arith.ModShift(p - base, w, -1);
      assert p - base + w * -1 == p - (base + w);
      var q, q' := LinkOf(prev, base, p), LinkOf(SlidTable(prev, w), base + w, p);
      assert q' == Slid(q, w);
      assert q' != NIL ==> base + w + q' == base + q;
    }
  }

  /** Sliding both tables along with the window keeps the dictionary. */
  lemma SlideKeepsChains(l: Level, head: seq<nat>, prev: seq<nat>, text: seq<byte>, ins: set<nat>, base: nat, top: nat)
    requires ChainsOk(l, head, prev, text, ins, base, top)
    ensures ChainsOk(l, SlidTable(head, |prev|), SlidTable(prev, |prev|), text, ins, base + |prev|, top)
  {
    hide HeadsOk, LinksOk;
    SlideKeepsHeads(l, head, text, ins, base, |prev|);
    SlideKeepsLinks(l, prev, text, ins, base, top);
  }

  /** CLEAR_HASH forgets every string, wherever the window stands. */
  lemma EmptyChains(l: Level, head: seq<nat>, prev: seq<nat>, text: seq<byte>, base: nat, top: nat)
    requires |head| == HashSize(l) && |prev| > 0 && forall h :: 0 <= h < |head| ==> head[h] == NIL
    ensures ChainsOk(l, head, prev, text, {}, base, top)
  {
  }
}
