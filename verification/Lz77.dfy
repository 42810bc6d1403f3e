/** The meaning of a tallied block: literals and (distance, length) pairs
    expanded as section 3.2 of RFC 1951 tells a decoder to expand them. */
module Lz77 {
  import opened Bits

  const MIN_MATCH: nat := 3
  const MAX_MATCH: nat := 258

  datatype Token = Literal(c: byte) | Match(distance: nat, length: nat)

  /** Append `n` bytes, each copied from `d` bytes before the current end; the
      source may overlap what is being written. */
  function CopyBack(out: seq<byte>, d: nat, n: nat): (r: seq<byte>)
    requires 1 <= d <= |out|
    ensures |r| == |out| + n
    decreases n
  {
    if n == 0 then out else CopyBack(out + [out[|out| - d]], d, n - 1)
  }

  /** What a decoder does with one more token; a distance that reaches before
      the first byte is undecodable and is skipped here. */
  function Apply(out: seq<byte>, t: Token): seq<byte>
  {
    match t
    case Literal(c) => out + [c]
    case Match(d, n) => if 1 <= d <= |out| then CopyBack(out, d, n) else out
  }

  function Expand(ts: seq<Token>): seq<byte>
  {
    if |ts| == 0 then [] else Apply(Expand(ts[..|ts| - 1]), ts[|ts| - 1])
  }

  /** A token deflate may emit after `n` bytes of output. */
  predicate Encodable(t: Token, n: nat, maxDist: nat)
  {
    t.Match? ==> MIN_MATCH <= t.length <= MAX_MATCH && 1 <= t.distance <= maxDist && t.distance <= n
  }

  /** Every token of the sequence is encodable where it stands. */
  predicate AllEncodable(ts: seq<Token>, maxDist: nat)
  {
    |ts| > 0 ==>
      && AllEncodable(ts[..|ts| - 1], maxDist)
      && Encodable(ts[|ts| - 1], |Expand(ts[..|ts| - 1])|, maxDist)
  }

  lemma {:induction false} EncodablePrefix(ts: seq<Token>, us: seq<Token>, maxDist: nat)
    requires AllEncodable(ts + us, maxDist)
    ensures AllEncodable(ts, maxDist)
    decreases |us|
  {
    if |us| == 0 {
      assert ts + us == ts;
    } else {
      assert (ts + us)[..|ts + us| - 1] == ts + us[..|us| - 1];
      EncodablePrefix(ts, us[..|us| - 1], maxDist);
    }
  }

  lemma ExpandSnoc(ts: seq<Token>, t: Token, maxDist: nat)
    ensures Expand(ts + [t]) == Apply(Expand(ts), t)
    ensures AllEncodable(ts + [t], maxDist)
        <==> AllEncodable(ts, maxDist) && Encodable(t, |Expand(ts)|, maxDist)
  {
    assert (ts + [t])[..|ts + [t]| - 1] == ts;
  }

  /** The `n` bytes at `p` repeat the ones `d` bytes earlier. */
  ghost predicate Repeats(s: seq<byte>, p: nat, d: int, n: nat)
  {
    && 1 <= d <= p
    && p + n <= |s|
    && forall i :: p <= i < p + n ==> s[i] == s[i - d]
  }

  lemma RepeatsMore(s: seq<byte>, p: nat, d: int, n: nat)
    requires Repeats(s, p, d, n) && p + n < |s| && s[p + n] == s[p + n - d]
    ensures Repeats(s, p, d, n + 1)
  {
  }

  lemma RepeatsFewer(s: seq<byte>, p: nat, d: int, n: nat, m: nat)
    requires Repeats(s, p, d, n) && m <= n
    ensures Repeats(s, p, d, m)
  {
  }

  /** A true match, appended to everything before it, reproduces the text. */
  lemma {:induction false} CopyReproduces(s: seq<byte>, p: nat, d: nat, n: nat)
    requires Repeats(s, p, d, n)
    ensures CopyBack(s[..p], d, n) == s[..p + n]
    decreases n
  {
    if n > 0 {
      assert s[p] == s[..p][p - d];
      assert s[..p] + [s[p]] == s[..p + 1];
      CopyReproduces(s, p + 1, d, n - 1);
    }
  }

  /** Tallying the literal at the end of the covered text covers one byte more. */
  lemma LiteralCovers(ts: seq<Token>, s: seq<byte>, p: nat, maxDist: nat)
    requires p < |s| && Expand(ts) == s[..p] && AllEncodable(ts, maxDist)
    ensures Expand(ts + [Literal(s[p])]) == s[..p + 1] && AllEncodable(ts + [Literal(s[p])], maxDist)
  {
    ExpandSnoc(ts, Literal(s[p]), maxDist);
  }

  /** Tallying a true match covers its whole length. */
  lemma MatchCovers(ts: seq<Token>, s: seq<byte>, p: nat, d: nat, n: nat, maxDist: nat)
    requires Repeats(s, p, d, n) && Expand(ts) == s[..p] && AllEncodable(ts, maxDist)
    requires MIN_MATCH <= n <= MAX_MATCH && d <= maxDist
    ensures Expand(ts + [Match(d, n)]) == s[..p + n] && AllEncodable(ts + [Match(d, n)], maxDist)
  {
    ExpandSnoc(ts, Match(d, n), maxDist);
    CopyReproduces(s, p, d, n);
  }
}
