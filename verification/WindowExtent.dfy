/** Which bytes of deflate's window were ever written.  fill_window zeroes WIN_INIT bytes
    behind the data, but a slide also copies down what was not written yet. */
module WindowExtent {

  /** The written bytes, and where the unwritten ones that a slide copied below the
      middle of the window begin; there are none if that is at the middle or above. */
  datatype Extent = Extent(written: set<nat>, hole: nat)

  function Max(a: int, b: int): int { if a < b then b else a }

  function Min(a: int, b: int): int { if a < b then a else b }

  predicate Above(lo: nat, i: nat) { lo <= i }

  function Range(lo: nat, hi: nat): set<nat> { set i: nat | i < hi && Above(lo, i) }

  /** high is high_water and end the end of the data: below both everything is written,
      but for the hole. */
  ghost predicate Traced(x: Extent, wSize: nat, high: nat, end: nat)
  {
    && end <= x.hole && end <= 2 * wSize && high <= 2 * wSize
    && (x.hole < wSize ==> wSize <= high)
    && (forall i :: i in x.written ==> i < 2 * wSize)
    && forall i :: 0 <= i < 2 * wSize ==> (i in x.written <==> i < Max(high, end) && !(x.hole <= i < wSize))
  }

  lemma {:induction false} TracedHole(x: Extent, wSize: nat, high: nat, end: nat)
    requires Traced(x, wSize, high, end)
    ensures end <= x.hole && end <= 2 * wSize && high <= 2 * wSize && (x.hole < wSize ==> wSize <= high)
  {
  }

  lemma {:induction false} FreshTraced(wSize: nat)
    ensures Traced(Extent({}, wSize), wSize, 0, 0)
  {
  }

  /** The window may be started afresh. */
  lemma {:induction false} TracedShrinks(x: Extent, wSize: nat, high: nat, end: nat)
    requires Traced(x, wSize, high, end) && end <= high
    ensures Traced(x, wSize, high, 0)
  {
  }

  /** The upper half is copied over the lower half. */
  function Slide(x: Extent, wSize: nat, high: nat): Extent
    requires wSize <= high
  {
    Extent((set i | i in x.written && i >= wSize) + (set i | i in x.written && i >= wSize :: i - wSize), high - wSize)
  }

  lemma {:induction false} SlideTraced(x: Extent, wSize: nat, high: nat, end: nat)
    requires Traced(x, wSize, high, end) && wSize <= end <= high
    ensures Traced(Slide(x, wSize, high), wSize, high, end - wSize) && Slide(x, wSize, high).hole == high - wSize
  {
    var w' := Slide(x, wSize, high).written;
    forall i | 0 <= i < 2 * wSize ensures i in w' <==> i < high && !(high - wSize <= i < wSize) {
      if i + wSize in x.written { assert i + wSize - wSize in w'; }
    }
  }

  /** n bytes of input go behind the data. */
  function Read(x: Extent, end: nat, n: nat): Extent
  {
    Extent(x.written + Range(end, end + n), Max(x.hole, end + n))
  }

  lemma {:induction false} ReadTraced(x: Extent, wSize: nat, high: nat, end: nat, n: nat)
    requires Traced(x, wSize, high, end) && end + n <= 2 * wSize
    ensures Traced(Read(x, end, n), wSize, high, end + n) && Read(x, end, n).hole == Max(x.hole, end + n)
  {
  }

  /** Zeros are written from lo on. */
  function Zero(x: Extent, lo: nat, n: nat): Extent { Extent(x.written + Range(lo, lo + n), x.hole) }

  lemma {:induction false} ZeroTraced(x: Extent, wSize: nat, high: nat, end: nat, n: nat)
    requires Traced(x, wSize, high, end) && Max(high, end) + n <= 2 * wSize
    ensures Traced(Zero(x, Max(high, end), n), wSize, Max(high, end) + n, end)
    ensures Zero(x, Max(high, end), n).hole == x.hole
  {
  }

  /** Every byte that a comparison of n bytes at the end of the data can look at is written. */
  ghost predicate Clean(x: Extent, wSize: nat, end: nat, n: nat)
  {
    forall i :: 0 <= i < Min(2 * wSize, end + n) ==> i in x.written
  }

  /** Once the tail is zeroed, only the hole can be in the way. */
  lemma {:induction false} CleanIff(x: Extent, wSize: nat, high: nat, end: nat, n: nat)
    requires Traced(x, wSize, high, end) && Min(2 * wSize, end + n) <= high && n > 0
    ensures Clean(x, wSize, end, n) <==> wSize <= x.hole || end + n <= x.hole
  {
    if x.hole < wSize && x.hole < end + n {
      assert x.hole !in x.written;
    }
  }
}
