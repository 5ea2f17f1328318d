/**
  The two search frontiers of the middle-snake search.

  Two breadth-first searches run towards each other over the edit grid, one edit step per round.
  A vector holds the furthest reach on each diagonal; only every second diagonal is live in a
  round, so each pass overwrites the entries of one parity while it reads those of the other.
 */
module Frontier {
  import opened EditGrid

  const GNULINEREF_MAX: int := 0x7FFF_FFFF_FFFF_FFFF
  const SNAKE_LIMIT: int := 20

  /** A vector indexed by diagonal: its origin is shifted so that every diagonal of the files has an entry. */
  ghost predicate Fits(b: Box, v: seq<int>) {
    b.Valid() && |v| == |b.xs| + |b.ys| + 3
  }

  function Index(b: Box, d: int): int { |b.ys| + 1 + d }

  /** The entry of diagonal d. */
  ghost function At(b: Box, v: seq<int>, d: int): int
    requires Fits(b, v) && b.Dmin() - 1 <= d <= b.Dmax() + 1
  {
    v[Index(b, d)]
  }

  /** Diagonal d is live in round c of a search that started on diagonal mid. */
  ghost predicate Live(d: int, mid: int, c: int) { (d - mid - c) % 2 == 0 }

  /** The live diagonals after round c: those of c's parity, at most c away from the start, inside the box. */
  ghost predicate Window(b: Box, mid: int, lo: int, hi: int, c: int) {
    && b.Dmin() <= lo <= mid - c % 2
    && mid + c % 2 <= hi <= b.Dmax()
    && (lo == mid - c || lo <= b.Dmin() + 1)
    && (hi == mid + c || b.Dmax() - 1 <= hi)
    && Live(lo, mid, c)
    && Live(hi, mid, c)
  }

  /** How the live range moves from one round to the next. */
  function NextLo(b: Box, lo: int): int { if lo > b.Dmin() then lo - 1 else lo + 1 }

  function NextHi(b: Box, hi: int): int { if hi < b.Dmax() then hi + 1 else hi - 1 }

  /** Every live entry is a true reach. */
  ghost predicate FwdSound(b: Box, v: seq<int>, lo: int, hi: int, c: int)
    requires Fits(b, v) && b.Dmin() <= lo && hi <= b.Dmax()
  {
    forall d :: lo <= d <= hi && Live(d, b.Fmid(), c) ==> b.FwdReach(c, d, At(b, v, d))
  }

  /** No point of the box that c changes can reach lies beyond its diagonal's entry. */
  ghost predicate FwdCover(b: Box, v: seq<int>, lo: int, hi: int, c: int)
    requires Fits(b, v) && b.Dmin() <= lo && hi <= b.Dmax()
  {
    forall x, y {:trigger b.Fwd(x, y)} :: b.In(x, y) && b.Fwd(x, y) <= c && Live(x - y, b.Fmid(), c) ==>
                                            lo <= x - y <= hi && x <= At(b, v, x - y)
  }

  ghost predicate FwdFrontier(b: Box, v: seq<int>, lo: int, hi: int, c: int) {
    Fits(b, v) && Window(b, b.Fmid(), lo, hi, c) && FwdSound(b, v, lo, hi, c) && FwdCover(b, v, lo, hi, c)
  }

  ghost predicate BwdSound(b: Box, v: seq<int>, lo: int, hi: int, c: int)
    requires Fits(b, v) && b.Dmin() <= lo && hi <= b.Dmax()
  {
    forall d :: lo <= d <= hi && Live(d, b.Bmid(), c) ==> b.BwdReach(c, d, At(b, v, d))
  }

  ghost predicate BwdCover(b: Box, v: seq<int>, lo: int, hi: int, c: int)
    requires Fits(b, v) && b.Dmin() <= lo && hi <= b.Dmax()
  {
    forall x, y {:trigger b.Bwd(x, y)} :: b.In(x, y) && b.Bwd(x, y) <= c && Live(x - y, b.Bmid(), c) ==>
                                            lo <= x - y <= hi && At(b, v, x - y) <= x
  }

  ghost predicate BwdFrontier(b: Box, v: seq<int>, lo: int, hi: int, c: int) {
    Fits(b, v) && Window(b, b.Bmid(), lo, hi, c) && BwdSound(b, v, lo, hi, c) && BwdCover(b, v, lo, hi, c)
  }

  /** The two searches have not passed each other on any diagonal from `from` on that is live in both. */
  ghost predicate Apart(b: Box, f: seq<int>, w: seq<int>, from: int, fmax: int, bmin: int, bmax: int, c: int)
    requires Fits(b, f) && Fits(b, w) && b.Dmin() <= from && fmax <= b.Dmax()
  {
    forall d {:trigger At(b, f, d)} :: from <= d <= fmax && bmin <= d <= bmax && Live(d, b.Fmid(), c) ==>
      At(b, f, d) < At(b, w, d)
  }

  /** What one forward round does to a diagonal: step from the better neighbour, then follow the matches. */
  ghost predicate FwdExtended(b: Box, v: seq<int>, c: int, d: int)
    requires Fits(b, v) && b.Dmin() <= d <= b.Dmax()
  {
    && b.FwdReach(c, d, At(b, v, d))
    && At(b, v, d - 1) + 1 <= At(b, v, d)
    && At(b, v, d + 1) <= At(b, v, d)
    && !b.Match(At(b, v, d), At(b, v, d) - d)
  }

  ghost predicate BwdExtended(b: Box, v: seq<int>, c: int, d: int)
    requires Fits(b, v) && b.Dmin() <= d <= b.Dmax()
  {
    && b.BwdReach(c, d, At(b, v, d))
    && At(b, v, d) <= At(b, v, d - 1)
    && At(b, v, d) <= At(b, v, d + 1) - 1
    && !b.Match(At(b, v, d) - 1, At(b, v, d) - 1 - d)
  }

  ghost predicate AllFwdExtended(b: Box, v: seq<int>, from: int, hi: int, c: int)
    requires Fits(b, v) && b.Dmin() <= from && hi <= b.Dmax()
  {
    forall d {:trigger FwdExtended(b, v, c, d)} :: from <= d <= hi && Live(d, b.Fmid(), c) ==> FwdExtended(b, v, c, d)
  }

  ghost predicate AllBwdExtended(b: Box, v: seq<int>, from: int, hi: int, c: int)
    requires Fits(b, v) && b.Dmin() <= from && hi <= b.Dmax()
  {
    forall d {:trigger BwdExtended(b, v, c, d)} :: from <= d <= hi && Live(d, b.Bmid(), c) ==> BwdExtended(b, v, c, d)
  }

  /** The entries that a round reads: last round's reaches inside the live range, sentinels just outside it. */
  ghost predicate FwdReadable(b: Box, v: seq<int>, lo: int, hi: int, c: int, d: int)
    requires Fits(b, v) && b.Dmin() - 1 <= d <= b.Dmax() + 1
  {
    if lo <= d <= hi then b.FwdReach(c, d, At(b, v, d)) else At(b, v, d) == -1
  }

  ghost predicate BwdReadable(b: Box, v: seq<int>, lo: int, hi: int, c: int, d: int)
    requires Fits(b, v) && b.Dmin() - 1 <= d <= b.Dmax() + 1
  {
    if lo <= d <= hi then b.BwdReach(c, d, At(b, v, d)) else At(b, v, d) == GNULINEREF_MAX
  }

  ghost predicate AllFwdReadable(b: Box, v: seq<int>, lo: int, hi: int, c: int)
    requires Fits(b, v) && b.Dmin() <= NextLo(b, lo) && NextHi(b, hi) <= b.Dmax()
  {
    forall d {:trigger FwdReadable(b, v, lo, hi, c, d)} ::
      NextLo(b, lo) - 1 <= d <= NextHi(b, hi) + 1 && Live(d, b.Fmid(), c) ==> FwdReadable(b, v, lo, hi, c, d)
  }

  ghost predicate AllBwdReadable(b: Box, v: seq<int>, lo: int, hi: int, c: int)
    requires Fits(b, v) && b.Dmin() <= NextLo(b, lo) && NextHi(b, hi) <= b.Dmax()
  {
    forall d {:trigger BwdReadable(b, v, lo, hi, c, d)} ::
      NextLo(b, lo) - 1 <= d <= NextHi(b, hi) + 1 && Live(d, b.Bmid(), c) ==> BwdReadable(b, v, lo, hi, c, d)
  }

  // ----- geometry of the live range

  lemma NextWindow(b: Box, mid: int, lo: int, hi: int, c: int)
    requires b.Valid() && c >= 1 && b.Dmin() < mid < b.Dmax() && Window(b, mid, lo, hi, c - 1)
    ensures Window(b, mid, NextLo(b, lo), NextHi(b, hi), c)
  {
  }

  lemma NextLive(b: Box, mid: int, lo: int, hi: int, c: int, e: int, d: int)
    requires b.Valid() && c >= 1 && Window(b, mid, lo, hi, c - 1) && Live(d, mid, c)
    requires (d == e - 1 || d == e + 1) && b.Dmin() <= d <= b.Dmax()
    ensures Live(e, mid, c - 1)
    ensures lo <= e <= hi ==> NextLo(b, lo) <= d <= NextHi(b, hi)
  {
  }

  lemma NeighbourLive(b: Box, mid: int, lo: int, hi: int, c: int, d: int)
    requires b.Valid() && c >= 1 && Window(b, mid, lo, hi, c - 1) && Live(d, mid, c)
    requires NextLo(b, lo) <= d <= NextHi(b, hi)
    ensures Live(d - 1, mid, c - 1) && Live(d + 1, mid, c - 1)
    ensures lo <= d - 1 <= hi || lo <= d + 1 <= hi
  {
  }

  lemma MidInWindow(b: Box, mid: int, lo: int, hi: int, c: int)
    requires Window(b, mid, lo, hi, c)
    ensures lo <= mid <= hi
  {
  }

  lemma OtherParity(d: int, k: int, mid: int, c: int)
    requires Live(d, mid, c) && Live(k, mid, c - 1)
    ensures d != k
  {
  }

  lemma StepLive(d: int, mid: int, c: int)
    requires Live(d, mid, c)
    ensures Live(d - 2, mid, c)
  {
  }

  /**
    With an odd distance between the start diagonals, this round's forward diagonals are last round's
    backward ones.
   */
  lemma OtherSearchLive(b: Box, c: int, d: int)
    requires Live(d, b.Fmid(), c) && (b.Fmid() - b.Bmid()) % 2 != 0
    ensures Live(d, b.Bmid(), c - 1)
  {
  }

  /** With an even distance between the start diagonals, both searches are live on the same diagonals. */
  lemma SameSearchLive(b: Box, c: int, d: int)
    requires Live(d, b.Bmid(), c) && (b.Fmid() - b.Bmid()) % 2 == 0
    ensures Live(d, b.Fmid(), c)
  {
  }

  lemma SameParity(d: int, k: int, mid: int, c: int)
    requires Live(d, mid, c) && Live(k, mid, c) && d < k
    ensures d + 2 <= k
  {
  }

  /** A live neighbour of the next range that is not in the last one is one of the two sentinels. */
  lemma JustOutside(b: Box, mid: int, lo: int, hi: int, c: int, k: int)
    requires b.Valid() && c >= 1 && Window(b, mid, lo, hi, c - 1) && Live(k, mid, c - 1)
    requires NextLo(b, lo) - 1 <= k <= NextHi(b, hi) + 1 && !(lo <= k <= hi)
    ensures (NextLo(b, lo) < lo && k == NextLo(b, lo) - 1) || (NextHi(b, hi) > hi && k == NextHi(b, hi) + 1)
  {
  }
}
