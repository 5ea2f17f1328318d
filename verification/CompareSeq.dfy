/**
  The divide-and-conquer comparison (`compareseq`).

  `xs` and `ys` are the codes of the lines that take part; `idx0` and `idx1` map them to the line
  numbers of the files.  The flag arrays carry one extra element, always false, at each end, so the
  flag of line k sits at index k + 1.
 */
module CompareSeq {
  import opened EditDistance
  import opened EditGrid
  import opened Alignment
  import Frontier
  import MiddleSnake

  /** A strictly increasing table of line numbers below n. */
  ghost predicate RealIndexes(idx: seq<int>, n: int) {
    && (forall i :: 0 <= i < |idx| ==> 0 <= idx[i] < n)
    && (forall i, j :: 0 <= i < j < |idx| ==> idx[i] < idx[j])
  }

  /** The flags of the lines that take part. */
  ghost function Virtual(changed: seq<bool>, idx: seq<int>): (v: seq<bool>)
    requires RealIndexes(idx, |changed| - 2)
    ensures |v| == |idx|
  {
    seq(|idx|, i requires 0 <= i < |idx| => changed[idx[i] + 1])
  }

  /** Only flags of the lines idx[lo..hi] differ between two states of a flag vector. */
  ghost predicate OnlyIn(before: seq<bool>, after: seq<bool>, idx: seq<int>, lo: int, hi: int)
    requires 0 <= lo <= hi <= |idx|
  {
    |before| == |after| && forall k :: 0 <= k < |before| && before[k] != after[k] ==> k - 1 in idx[lo..hi]
  }

  lemma OnlyInVirtual(before: seq<bool>, after: seq<bool>, idx: seq<int>, lo: int, hi: int)
    requires 0 <= lo <= hi <= |idx| && RealIndexes(idx, |before| - 2) && OnlyIn(before, after, idx, lo, hi)
    ensures forall i :: 0 <= i < lo || hi <= i < |idx| ==> Virtual(after, idx)[i] == Virtual(before, idx)[i]
    ensures Virtual(after, idx)[..lo] == Virtual(before, idx)[..lo]
    ensures Virtual(after, idx)[hi..] == Virtual(before, idx)[hi..]
  {
    forall i | 0 <= i < lo || hi <= i < |idx|
      ensures Virtual(after, idx)[i] == Virtual(before, idx)[i]
    {
      if idx[i] in idx[lo..hi] {
        assert false;
      }
    }
  }

  lemma OnlyInJoin(a: seq<bool>, b: seq<bool>, c: seq<bool>, idx: seq<int>, lo: int, lo1: int, hi1: int, lo2: int,
                   hi2: int, hi: int)
    requires 0 <= lo <= lo1 <= hi1 <= hi <= |idx| && lo <= lo2 <= hi2 <= hi
    requires OnlyIn(a, b, idx, lo1, hi1) && OnlyIn(b, c, idx, lo2, hi2)
    ensures OnlyIn(a, c, idx, lo, hi)
  {
    forall k | 0 <= k < |a| && a[k] != c[k]
      ensures k - 1 in idx[lo..hi]
    {
      if a[k] != b[k] {
        assert k - 1 in idx[lo1..hi1];
      } else {
        assert k - 1 in idx[lo2..hi2];
      }
    }
  }

  /** Marks the lines idx[lo..hi]. */
  method MarkRange(changed: array<bool>, idx: seq<int>, lo: int, hi: int)
    requires 0 <= lo <= hi <= |idx| && RealIndexes(idx, changed.Length - 2)
    modifies changed
    ensures OnlyIn(old(changed[..]), changed[..], idx, lo, hi)
    ensures forall i :: lo <= i < hi ==> Virtual(changed[..], idx)[i]
  {
    var i := lo;
    while i < hi
      invariant lo <= i <= hi
      invariant forall k :: 0 <= k < changed.Length && changed[k] != old(changed[k]) ==> k - 1 in idx[lo..hi]
      invariant forall j :: lo <= j < i ==> changed[idx[j] + 1]
    {
      assert idx[lo..hi][i - lo] == idx[i];
      changed[idx[i] + 1] := true;
      i := i + 1;
    }
  }

  /** What one call establishes for its box. */
  ghost predicate Compared(xs: seq<int>, ys: seq<int>, c0: seq<bool>, c1: seq<bool>, x0: int, x1: int, y0: int, y1: int,
                           minimal: bool) {
    && Segment(xs, ys, c0, c1, x0, x1, y0, y1)
    && (minimal ==> Marked(c0[x0..x1]) + Marked(c1[y0..y1]) == Dist(xs, ys, x0, x1, y0, y1))
  }

  /** Two compared boxes that share a corner make one compared box, if the corner lies on a cheapest way. */
  lemma ComparedJoin(xs: seq<int>, ys: seq<int>, c0: seq<bool>, c1: seq<bool>, x0: int, x1: int, x2: int, y0: int,
                     y1: int, y2: int, minimal: bool)
    requires Compared(xs, ys, c0, c1, x0, x1, y0, y1, minimal) && Compared(xs, ys, c0, c1, x1, x2, y1, y2, minimal)
    requires minimal ==> Dist(xs, ys, x0, x2, y0, y2) == Dist(xs, ys, x0, x1, y0, y1) + Dist(xs, ys, x1, x2, y1, y2)
    ensures Compared(xs, ys, c0, c1, x0, x2, y0, y2, minimal)
  {
    hide Dist, Kept, Marked;
    SegmentJoin(xs, ys, c0, c1, x0, x1, x2, y0, y1, y2);
    MarkedJoin(c0, x0, x1, x2);
    MarkedJoin(c1, y0, y1, y2);
  }

  /** A compared box stays compared as long as its flags do not change. */
  lemma ComparedKeeps(xs: seq<int>, ys: seq<int>, c0: seq<bool>, c1: seq<bool>, d0: seq<bool>, d1: seq<bool>, x0: int,
                      x1: int, y0: int, y1: int, minimal: bool)
    requires Compared(xs, ys, c0, c1, x0, x1, y0, y1, minimal) && |d0| == |c0| && |d1| == |c1|
    requires forall i :: x0 <= i < x1 ==> d0[i] == c0[i]
    requires forall i :: y0 <= i < y1 ==> d1[i] == c1[i]
    ensures Compared(xs, ys, d0, d1, x0, x1, y0, y1, minimal)
  {
    assert d0[x0..x1] == c0[x0..x1] && d1[y0..y1] == c1[y0..y1];
  }

  /** A run of unmarked matches is compared at no cost. */
  lemma ComparedMatches(xs: seq<int>, ys: seq<int>, c0: seq<bool>, c1: seq<bool>, x0: int, x1: int, y0: int, y1: int)
    requires |c0| == |xs| && |c1| == |ys| && 0 <= x0 <= x1 <= |xs| && 0 <= y0 <= y1 <= |ys|
    requires xs[x0..x1] == ys[y0..y1]
    requires forall i :: x0 <= i < x1 ==> !c0[i]
    requires forall i :: y0 <= i < y1 ==> !c1[i]
    ensures Compared(xs, ys, c0, c1, x0, x1, y0, y1, true) && Dist(xs, ys, x0, x1, y0, y1) == 0
  {
    NoneMarked(xs[x0..x1], c0[x0..x1]);
    NoneMarked(ys[y0..y1], c1[y0..y1]);
    MatchesCostNothing(xs, ys, x0, x1, y0, y1);
  }

  lemma {:induction false} MatchesCostNothing(xs: seq<int>, ys: seq<int>, x0: int, x1: int, y0: int, y1: int)
    requires 0 <= x0 <= x1 <= |xs| && 0 <= y0 <= y1 <= |ys| && xs[x0..x1] == ys[y0..y1]
    ensures Dist(xs, ys, x0, x1, y0, y1) == 0
    decreases x1 - x0
  {
    assert |xs[x0..x1]| == |ys[y0..y1]|;
    if x0 < x1 {
      assert xs[x0..x1][0] == ys[y0..y1][0];
      assert xs[x0 + 1..x1] == xs[x0..x1][1..] == ys[y0..y1][1..] == ys[y0 + 1..y1];
      MatchesCostNothing(xs, ys, x0 + 1, x1, y0 + 1, y1);
    }
  }

  /** When one side is empty every line of the other is marked. */
  lemma ComparedEmpty(xs: seq<int>, ys: seq<int>, c0: seq<bool>, c1: seq<bool>, x0: int, x1: int, y0: int, y1: int,
                      minimal: bool)
    requires |c0| == |xs| && |c1| == |ys| && 0 <= x0 <= x1 <= |xs| && 0 <= y0 <= y1 <= |ys| && (x0 == x1 || y0 == y1)
    requires forall i :: x0 <= i < x1 ==> c0[i]
    requires forall i :: y0 <= i < y1 ==> c1[i]
    ensures Compared(xs, ys, c0, c1, x0, x1, y0, y1, minimal)
  {
    AllMarked(xs[x0..x1], c0[x0..x1]);
    AllMarked(ys[y0..y1], c1[y0..y1]);
  }

  lemma FrontMatch(xs: seq<int>, ys: seq<int>, x0: int, x1: int, y0: int, y1: int)
    requires 0 <= x0 < x1 <= |xs| && 0 <= y0 < y1 <= |ys| && xs[x0] == ys[y0]
    ensures Dist(xs, ys, x0, x1, y0, y1) == Dist(xs, ys, x0 + 1, x1, y0 + 1, y1)
  {
  }

  lemma SliceLonger(xs: seq<int>, ys: seq<int>, x0: int, x1: int, y0: int, y1: int)
    requires 0 <= x0 <= x1 < |xs| && 0 <= y0 <= y1 < |ys| && xs[x0..x1] == ys[y0..y1] && xs[x1] == ys[y1]
    ensures xs[x0..x1 + 1] == ys[y0..y1 + 1]
  {
    assert xs[x0..x1 + 1] == xs[x0..x1] + [xs[x1]] && ys[y0..y1 + 1] == ys[y0..y1] + [ys[y1]];
  }

  lemma SliceEarlier(xs: seq<int>, ys: seq<int>, x0: int, x1: int, y0: int, y1: int)
    requires 0 < x0 <= x1 <= |xs| && 0 < y0 <= y1 <= |ys| && xs[x0..x1] == ys[y0..y1] && xs[x0 - 1] == ys[y0 - 1]
    ensures xs[x0 - 1..x1] == ys[y0 - 1..y1]
  {
    assert xs[x0 - 1..x1] == [xs[x0 - 1]] + xs[x0..x1] && ys[y0 - 1..y1] == [ys[y0 - 1]] + ys[y0..y1];
  }

  /** Slides over the matching lines at both ends of a box, which does not change its cost. */
  method Slide(xs: seq<int>, ys: seq<int>, x0: int, x1: int, y0: int, y1: int)
    returns (xoff: int, xlim: int, yoff: int, ylim: int)
    requires 0 <= x0 <= x1 <= |xs| && 0 <= y0 <= y1 <= |ys|
    ensures x0 <= xoff <= xlim <= x1 && y0 <= yoff <= ylim <= y1
    ensures xs[x0..xoff] == ys[y0..yoff] && xs[xlim..x1] == ys[ylim..y1]
    ensures xoff < xlim && yoff < ylim ==> xs[xoff] != ys[yoff] && xs[xlim - 1] != ys[ylim - 1]
    ensures Dist(xs, ys, x0, x1, y0, y1) == Dist(xs, ys, xoff, xlim, yoff, ylim)
  {
    hide Dist;
    xoff, xlim, yoff, ylim := x0, x1, y0, y1;
    while xoff < xlim && yoff < ylim && xs[xoff] == ys[yoff]
      invariant x0 <= xoff <= xlim && y0 <= yoff <= ylim && xs[x0..xoff] == ys[y0..yoff]
      invariant Dist(xs, ys, x0, x1, y0, y1) == Dist(xs, ys, xoff, xlim, yoff, ylim)
    {
      FrontMatch(xs, ys, xoff, xlim, yoff, ylim);
      SliceLonger(xs, ys, x0, xoff, y0, yoff);
      xoff, yoff := xoff + 1, yoff + 1;
    }
    while xlim > xoff && ylim > yoff && xs[xlim - 1] == ys[ylim - 1]
      invariant xoff <= xlim <= x1 && yoff <= ylim <= y1 && xs[xlim..x1] == ys[ylim..y1]
      invariant Dist(xs, ys, x0, x1, y0, y1) == Dist(xs, ys, xoff, xlim, yoff, ylim)
    {
      BackUnroll(xs, ys, xoff, xlim, yoff, ylim);
      SliceEarlier(xs, ys, xlim, x1, ylim, y1);
      xlim, ylim := xlim - 1, ylim - 1;
    }
  }

  /** The working storage of one comparison: flag vectors of both files and the two diagonal vectors. */
  ghost predicate Layout(xs: seq<int>, ys: seq<int>, idx0: seq<int>, idx1: seq<int>, changed0: array<bool>,
                         changed1: array<bool>, fd: array<int>, bd: array<int>) {
    && |idx0| == |xs| && |idx1| == |ys| && changed0 != changed1 && fd != bd
    && changed0.Length >= 2 && changed1.Length >= 2
    && RealIndexes(idx0, changed0.Length - 2) && RealIndexes(idx1, changed1.Length - 2)
    && fd.Length == bd.Length == |xs| + |ys| + 3 && |xs| + |ys| < Frontier.GNULINEREF_MAX
  }

  /** No line of the box is marked yet. */
  ghost predicate NoneMarkedIn(changed: seq<bool>, idx: seq<int>, lo: int, hi: int)
    requires RealIndexes(idx, |changed| - 2) && 0 <= lo <= hi <= |idx|
  {
    forall i :: lo <= i < hi ==> !Virtual(changed, idx)[i]
  }

  lemma NoneMarkedPart(changed: seq<bool>, idx: seq<int>, lo: int, hi: int, lo1: int, hi1: int)
    requires RealIndexes(idx, |changed| - 2) && 0 <= lo <= lo1 <= hi1 <= hi <= |idx|
    requires NoneMarkedIn(changed, idx, lo, hi)
    ensures NoneMarkedIn(changed, idx, lo1, hi1)
  {
  }

  lemma OnlyInSelf(changed: seq<bool>, idx: seq<int>, at: int)
    requires 0 <= at <= |idx|
    ensures OnlyIn(changed, changed, idx, at, at)
  {
  }

  lemma StillNoneMarked(before: seq<bool>, after: seq<bool>, idx: seq<int>, lo: int, hi: int, lo1: int, hi1: int)
    requires RealIndexes(idx, |before| - 2) && 0 <= lo <= hi <= |idx| && 0 <= lo1 <= hi1 <= |idx|
    requires OnlyIn(before, after, idx, lo, hi) && NoneMarkedIn(before, idx, lo1, hi1) && (hi1 <= lo || hi <= lo1)
    ensures NoneMarkedIn(after, idx, lo1, hi1)
  {
    OnlyInVirtual(before, after, idx, lo, hi);
  }

  /** The slid-over ends and the compared core together make the compared box. */
  lemma ComparedWithEnds(xs: seq<int>, ys: seq<int>, c0: seq<bool>, c1: seq<bool>, x0: int, xoff: int, xlim: int,
                         x1: int, y0: int, yoff: int, ylim: int, y1: int, minimal: bool)
    requires |c0| == |xs| && |c1| == |ys|
    requires 0 <= x0 <= xoff <= xlim <= x1 <= |xs| && 0 <= y0 <= yoff <= ylim <= y1 <= |ys|
    requires xs[x0..xoff] == ys[y0..yoff] && xs[xlim..x1] == ys[ylim..y1]
    requires forall i :: x0 <= i < xoff || xlim <= i < x1 ==> !c0[i]
    requires forall i :: y0 <= i < yoff || ylim <= i < y1 ==> !c1[i]
    requires Dist(xs, ys, x0, x1, y0, y1) == Dist(xs, ys, xoff, xlim, yoff, ylim)
    requires Compared(xs, ys, c0, c1, xoff, xlim, yoff, ylim, minimal)
    ensures Compared(xs, ys, c0, c1, x0, x1, y0, y1, minimal)
  {
    hide Dist, Kept, Marked;
    ComparedMatches(xs, ys, c0, c1, x0, xoff, y0, yoff);
    ComparedMatches(xs, ys, c0, c1, xlim, x1, ylim, y1);
    SegmentJoin(xs, ys, c0, c1, x0, xoff, xlim, y0, yoff, ylim);
    SegmentJoin(xs, ys, c0, c1, x0, xlim, x1, y0, ylim, y1);
    MarkedJoin(c0, x0, xoff, xlim);
    MarkedJoin(c0, x0, xlim, x1);
    MarkedJoin(c1, y0, yoff, ylim);
    MarkedJoin(c1, y0, ylim, y1);
  }

  /** From the core of a box to the whole of it: only core flags were written and the ends are unmarked matches. */
  lemma CoreDone(xs: seq<int>, ys: seq<int>, idx0: seq<int>, idx1: seq<int>, a0: seq<bool>, a1: seq<bool>,
                 c0: seq<bool>, c1: seq<bool>, x0: int, xoff: int, xlim: int, x1: int, y0: int, yoff: int, ylim: int,
                 y1: int, minimal: bool)
    requires |idx0| == |xs| && |idx1| == |ys| && RealIndexes(idx0, |a0| - 2) && RealIndexes(idx1, |a1| - 2)
    requires 0 <= x0 <= xoff <= xlim <= x1 <= |xs| && 0 <= y0 <= yoff <= ylim <= y1 <= |ys|
    requires xs[x0..xoff] == ys[y0..yoff] && xs[xlim..x1] == ys[ylim..y1]
    requires Dist(xs, ys, x0, x1, y0, y1) == Dist(xs, ys, xoff, xlim, yoff, ylim)
    requires NoneMarkedIn(a0, idx0, x0, x1) && NoneMarkedIn(a1, idx1, y0, y1)
    requires OnlyIn(a0, c0, idx0, xoff, xlim) && OnlyIn(a1, c1, idx1, yoff, ylim)
    requires Compared(xs, ys, Virtual(c0, idx0), Virtual(c1, idx1), xoff, xlim, yoff, ylim, minimal)
    ensures OnlyIn(a0, c0, idx0, x0, x1) && OnlyIn(a1, c1, idx1, y0, y1)
    ensures Compared(xs, ys, Virtual(c0, idx0), Virtual(c1, idx1), x0, x1, y0, y1, minimal)
  {
    hide Dist, Compared;
    OnlyInWiden(a0, c0, idx0, x0, xoff, xlim, x1);
    OnlyInWiden(a1, c1, idx1, y0, yoff, ylim, y1);
    OnlyInVirtual(a0, c0, idx0, xoff, xlim);
    OnlyInVirtual(a1, c1, idx1, yoff, ylim);
    ComparedWithEnds(xs, ys, Virtual(c0, idx0), Virtual(c1, idx1), x0, xoff, xlim, x1, y0, yoff, ylim, y1, minimal);
  }

  /** The two halves of a split box, compared one after the other, make the compared box. */
  lemma HalvesDone(xs: seq<int>, ys: seq<int>, idx0: seq<int>, idx1: seq<int>, a0: seq<bool>, a1: seq<bool>,
                   b0: seq<bool>, b1: seq<bool>, c0: seq<bool>, c1: seq<bool>, x0: int, xm: int, x1: int, y0: int,
                   ym: int, y1: int, lo: bool, hi: bool, minimal: bool)
    requires |idx0| == |xs| && |idx1| == |ys| && RealIndexes(idx0, |a0| - 2) && RealIndexes(idx1, |a1| - 2)
    requires 0 <= x0 <= xm <= x1 <= |xs| && 0 <= y0 <= ym <= y1 <= |ys|
    requires OnlyIn(a0, b0, idx0, x0, xm) && OnlyIn(a1, b1, idx1, y0, ym)
    requires OnlyIn(b0, c0, idx0, xm, x1) && OnlyIn(b1, c1, idx1, ym, y1)
    requires Compared(xs, ys, Virtual(b0, idx0), Virtual(b1, idx1), x0, xm, y0, ym, lo)
    requires Compared(xs, ys, Virtual(c0, idx0), Virtual(c1, idx1), xm, x1, ym, y1, hi)
    requires minimal ==>
               lo && hi && Dist(xs, ys, x0, x1, y0, y1) == Dist(xs, ys, x0, xm, y0, ym) + Dist(xs, ys, xm, x1, ym, y1)
    ensures OnlyIn(a0, c0, idx0, x0, x1) && OnlyIn(a1, c1, idx1, y0, y1)
    ensures Compared(xs, ys, Virtual(c0, idx0), Virtual(c1, idx1), x0, x1, y0, y1, minimal)
  {
    hide Dist, Kept, Marked;
    OnlyInJoin(a0, b0, c0, idx0, x0, x0, xm, xm, x1, x1);
    OnlyInJoin(a1, b1, c1, idx1, y0, y0, ym, ym, y1, y1);
    OnlyInVirtual(b0, c0, idx0, xm, x1);
    OnlyInVirtual(b1, c1, idx1, ym, y1);
    ComparedKeeps(xs, ys, Virtual(b0, idx0), Virtual(b1, idx1), Virtual(c0, idx0), Virtual(c1, idx1), x0, xm,
                  y0, ym, lo);
    ComparedJoin(xs, ys, Virtual(c0, idx0), Virtual(c1, idx1), x0, xm, x1, y0, ym, y1, minimal);
  }

  /** The number of marks is exactly the distance: on request, and whenever the distance is within the limits. */
  ghost predicate Exactly(xs: seq<int>, ys: seq<int>, x0: int, x1: int, y0: int, y1: int, effort: Effort)
    requires 0 <= x0 <= x1 <= |xs| && 0 <= y0 <= y1 <= |ys|
  {
    MiddleSnake.Prompt(Dist(xs, ys, x0, x1, y0, y1), effort.findMinimal, effort.speedLargeFiles, effort.tooExpensive)
  }

  /** How hard the search tries. */
  datatype Effort = Effort(findMinimal: bool, speedLargeFiles: bool, tooExpensive: int)

  lemma ExactlyMeans(xs: seq<int>, ys: seq<int>, c0: seq<bool>, c1: seq<bool>, x0: int, x1: int, y0: int, y1: int,
                     effort: Effort)
    requires 0 <= x0 <= x1 <= |xs| && 0 <= y0 <= y1 <= |ys|
    requires Compared(xs, ys, c0, c1, x0, x1, y0, y1, Exactly(xs, ys, x0, x1, y0, y1, effort))
    ensures Compared(xs, ys, c0, c1, x0, x1, y0, y1, effort.findMinimal)
  {
    hide Dist, Segment, Marked;
  }

  /** The core of a box costs what the box costs. */
  lemma ExactlyCore(xs: seq<int>, ys: seq<int>, x0: int, x1: int, y0: int, y1: int, xoff: int, xlim: int, yoff: int,
                    ylim: int, effort: Effort)
    requires 0 <= x0 <= x1 <= |xs| && 0 <= y0 <= y1 <= |ys|
    requires 0 <= xoff <= xlim <= |xs| && 0 <= yoff <= ylim <= |ys|
    requires Dist(xs, ys, x0, x1, y0, y1) == Dist(xs, ys, xoff, xlim, yoff, ylim)
    ensures Exactly(xs, ys, x0, x1, y0, y1, effort)
         == MiddleSnake.Prompt(Dist(xs, ys, xoff, xlim, yoff, ylim), effort.findMinimal, effort.speedLargeFiles,
                               effort.tooExpensive)
  {
    hide Dist;
  }

  /** What an exact split says about the distances. */
  lemma SplitDistances(b: EditGrid.Box, cost: int, part: MiddleSnake.Partition)
    requires b.Valid() && MiddleSnake.ExactSplit(b, cost, part)
    ensures part.loMinimal && part.hiMinimal && b.In(part.xmid, part.ymid)
    ensures Dist(b.xs, b.ys, b.xoff, b.xlim, b.yoff, b.ylim)
         == Dist(b.xs, b.ys, b.xoff, part.xmid, b.yoff, part.ymid)
            + Dist(b.xs, b.ys, part.xmid, b.xlim, part.ymid, b.ylim)
  {
    hide Dist;
  }

  // ----- where the marks come from

  /** The search may propose this split for the box. */
  ghost predicate Proposed(b: EditGrid.Box, part: MiddleSnake.Partition, effort: Effort)
    requires b.Valid()
  {
    && MiddleSnake.Splits(b, part)
    && exists cost, f, w :: ProposedFor(b, cost, f, w, part, effort)
  }

  ghost predicate ProposedFor(b: EditGrid.Box, cost: int, f: seq<int>, w: seq<int>, part: MiddleSnake.Partition,
                              effort: Effort)
    requires b.Valid()
  {
    && MiddleSnake.Searched(b, cost, effort.findMinimal, effort.speedLargeFiles)
    && if MiddleSnake.Prompt(b.Total(), effort.findMinimal, effort.speedLargeFiles, effort.tooExpensive)
       then MiddleSnake.ExactSplit(b, cost, part)
       else
         || MiddleSnake.ExactSplit(b, cost, part)
         || MiddleSnake.HeuristicSplit(b, f, w, (cost + 1) / 2, part, effort.speedLargeFiles, effort.tooExpensive)
  }

  /** The flags of a box: matching ends are unmarked, and its core is marked by division at a proposed split. */
  ghost predicate Traced(xs: seq<int>, ys: seq<int>, v0: seq<bool>, v1: seq<bool>, x0: int, x1: int, y0: int, y1: int,
                         effort: Effort)
    decreases x1 - x0 + y1 - y0, 1
  {
    && |v0| == |xs| && |v1| == |ys| && 0 <= x0 <= x1 <= |xs| && 0 <= y0 <= y1 <= |ys|
    && exists xoff, xlim, yoff, ylim ::
         Trims(xs, ys, v0, v1, x0, xoff, xlim, x1, y0, yoff, ylim, y1)
         && TracedCore(xs, ys, v0, v1, xoff, xlim, yoff, ylim, effort)
  }

  /** All matching lines at both ends lie outside the core, and none of them is marked. */
  ghost predicate Trims(xs: seq<int>, ys: seq<int>, v0: seq<bool>, v1: seq<bool>, x0: int, xoff: int, xlim: int,
                        x1: int, y0: int, yoff: int, ylim: int, y1: int) {
    && |v0| == |xs| && |v1| == |ys|
    && 0 <= x0 <= xoff <= xlim <= x1 <= |xs| && 0 <= y0 <= yoff <= ylim <= y1 <= |ys|
    && xs[x0..xoff] == ys[y0..yoff] && xs[xlim..x1] == ys[ylim..y1]
    && (xoff < xlim && yoff < ylim ==> xs[xoff] != ys[yoff] && xs[xlim - 1] != ys[ylim - 1])
    && (forall i :: x0 <= i < xoff || xlim <= i < x1 ==> !v0[i])
    && (forall i :: y0 <= i < yoff || ylim <= i < y1 ==> !v1[i])
  }

  ghost predicate TracedCore(xs: seq<int>, ys: seq<int>, v0: seq<bool>, v1: seq<bool>, x0: int, x1: int, y0: int,
                             y1: int, effort: Effort)
    requires |v0| == |xs| && |v1| == |ys| && 0 <= x0 <= x1 <= |xs| && 0 <= y0 <= y1 <= |ys|
    decreases x1 - x0 + y1 - y0, 0
  {
    if x0 == x1 || y0 == y1
    then (forall i :: x0 <= i < x1 ==> v0[i]) && (forall i :: y0 <= i < y1 ==> v1[i])
    else
      var b := EditGrid.Box(xs, ys, x0, x1, y0, y1);
      exists part :: Proposed(b, part, effort)
                     && Traced(xs, ys, v0, v1, x0, part.xmid, y0, part.ymid, effort.(findMinimal := part.loMinimal))
                     && Traced(xs, ys, v0, v1, part.xmid, x1, part.ymid, y1, effort.(findMinimal := part.hiMinimal))
  }

  /** Only the flags of the box count. */
  lemma {:induction false} TracedKeeps(xs: seq<int>, ys: seq<int>, v0: seq<bool>, v1: seq<bool>, w0: seq<bool>,
                                       w1: seq<bool>, x0: int, x1: int, y0: int, y1: int, effort: Effort)
    requires Traced(xs, ys, v0, v1, x0, x1, y0, y1, effort) && |w0| == |v0| && |w1| == |v1|
    requires (forall i :: x0 <= i < x1 ==> w0[i] == v0[i]) && (forall i :: y0 <= i < y1 ==> w1[i] == v1[i])
    ensures Traced(xs, ys, w0, w1, x0, x1, y0, y1, effort)
    decreases x1 - x0 + y1 - y0, 1
  {
    hide TracedCore;
    var xoff, xlim, yoff, ylim :| Trims(xs, ys, v0, v1, x0, xoff, xlim, x1, y0, yoff, ylim, y1)
                                  && TracedCore(xs, ys, v0, v1, xoff, xlim, yoff, ylim, effort);
    TrimsKeep(xs, ys, v0, v1, w0, w1, x0, xoff, xlim, x1, y0, yoff, ylim, y1);
    CoreKeeps(xs, ys, v0, v1, w0, w1, xoff, xlim, yoff, ylim, effort);
  }

  lemma {:induction false} CoreKeeps(xs: seq<int>, ys: seq<int>, v0: seq<bool>, v1: seq<bool>, w0: seq<bool>,
                                     w1: seq<bool>, x0: int, x1: int, y0: int, y1: int, effort: Effort)
    requires |v0| == |xs| == |w0| && |v1| == |ys| == |w1| && 0 <= x0 <= x1 <= |xs| && 0 <= y0 <= y1 <= |ys|
    requires TracedCore(xs, ys, v0, v1, x0, x1, y0, y1, effort)
    requires (forall i :: x0 <= i < x1 ==> w0[i] == v0[i]) && (forall i :: y0 <= i < y1 ==> w1[i] == v1[i])
    ensures TracedCore(xs, ys, w0, w1, x0, x1, y0, y1, effort)
    decreases x1 - x0 + y1 - y0, 0
  {
    hide Proposed, Traced;
    if x0 < x1 && y0 < y1 {
      var b := EditGrid.Box(xs, ys, x0, x1, y0, y1);
      var part :|
        Proposed(b, part, effort)
        && Traced(xs, ys, v0, v1, x0, part.xmid, y0, part.ymid, effort.(findMinimal := part.loMinimal))
        && Traced(xs, ys, v0, v1, part.xmid, x1, part.ymid, y1, effort.(findMinimal := part.hiMinimal));
      ProposedSplits(b, part, effort);
      TracedKeeps(xs, ys, v0, v1, w0, w1, x0, part.xmid, y0, part.ymid, effort.(findMinimal := part.loMinimal));
      TracedKeeps(xs, ys, v0, v1, w0, w1, part.xmid, x1, part.ymid, y1, effort.(findMinimal := part.hiMinimal));
    }
  }

  lemma TrimsKeep(xs: seq<int>, ys: seq<int>, v0: seq<bool>, v1: seq<bool>, w0: seq<bool>, w1: seq<bool>, x0: int,
                  xoff: int, xlim: int, x1: int, y0: int, yoff: int, ylim: int, y1: int)
    requires Trims(xs, ys, v0, v1, x0, xoff, xlim, x1, y0, yoff, ylim, y1) && |w0| == |v0| && |w1| == |v1|
    requires (forall i :: x0 <= i < x1 ==> w0[i] == v0[i]) && (forall i :: y0 <= i < y1 ==> w1[i] == v1[i])
    ensures Trims(xs, ys, w0, w1, x0, xoff, xlim, x1, y0, yoff, ylim, y1)
  {
  }

  lemma ProposedSplits(b: EditGrid.Box, part: MiddleSnake.Partition, effort: Effort)
    requires b.Valid() && Proposed(b, part, effort)
    ensures MiddleSnake.Splits(b, part)
  {
  }

  /** The split that was found is one that may be proposed. */
  lemma DiagProposes(b: EditGrid.Box, cost: int, f: seq<int>, w: seq<int>, part: MiddleSnake.Partition, effort: Effort)
    requires b.Valid() && MiddleSnake.Splits(b, part)
    requires MiddleSnake.Prompt(b.Total(), effort.findMinimal, effort.speedLargeFiles, effort.tooExpensive) ==>
               MiddleSnake.ExactSplit(b, cost, part)
    requires MiddleSnake.ExactSplit(b, cost, part)
             || MiddleSnake.HeuristicSplit(b, f, w, (cost + 1) / 2, part, effort.speedLargeFiles, effort.tooExpensive)
    requires MiddleSnake.Searched(b, cost, effort.findMinimal, effort.speedLargeFiles)
    ensures Proposed(b, part, effort)
  {
    hide MiddleSnake.Prompt, MiddleSnake.ExactSplit, MiddleSnake.HeuristicSplit, MiddleSnake.Searched;
    assert ProposedFor(b, cost, f, w, part, effort);
  }

  /** The core, divided. */
  lemma CoreDivided(xs: seq<int>, ys: seq<int>, v0: seq<bool>, v1: seq<bool>, w0: seq<bool>, w1: seq<bool>,
                    b: EditGrid.Box, part: MiddleSnake.Partition, effort: Effort)
    requires b.Valid() && b.xs == xs && b.ys == ys && b.xoff < b.xlim && b.yoff < b.ylim && Proposed(b, part, effort)
    requires Traced(xs, ys, v0, v1, b.xoff, part.xmid, b.yoff, part.ymid, effort.(findMinimal := part.loMinimal))
    requires Traced(xs, ys, w0, w1, part.xmid, b.xlim, part.ymid, b.ylim, effort.(findMinimal := part.hiMinimal))
    requires |w0| == |v0| && |w1| == |v1|
    requires forall i :: b.xoff <= i < part.xmid ==> w0[i] == v0[i]
    requires forall i :: b.yoff <= i < part.ymid ==> w1[i] == v1[i]
    ensures |w0| == |xs| && |w1| == |ys| && TracedCore(xs, ys, w0, w1, b.xoff, b.xlim, b.yoff, b.ylim, effort)
  {
    hide Traced, Proposed;
    TracedKeeps(xs, ys, v0, v1, w0, w1, b.xoff, part.xmid, b.yoff, part.ymid, effort.(findMinimal := part.loMinimal));
    TracedSizes(xs, ys, w0, w1, part.xmid, b.xlim, part.ymid, b.ylim, effort.(findMinimal := part.hiMinimal));
    assert b == EditGrid.Box(xs, ys, b.xoff, b.xlim, b.yoff, b.ylim);
  }

  lemma TracedSizes(xs: seq<int>, ys: seq<int>, v0: seq<bool>, v1: seq<bool>, x0: int, x1: int, y0: int, y1: int,
                    effort: Effort)
    requires Traced(xs, ys, v0, v1, x0, x1, y0, y1, effort)
    ensures |v0| == |xs| && |v1| == |ys|
  {
  }

  /** From the core to the box. */
  lemma TracedDone(xs: seq<int>, ys: seq<int>, idx0: seq<int>, idx1: seq<int>, a0: seq<bool>, a1: seq<bool>,
                   c0: seq<bool>, c1: seq<bool>, x0: int, xoff: int, xlim: int, x1: int, y0: int, yoff: int, ylim: int,
                   y1: int, effort: Effort)
    requires |idx0| == |xs| && |idx1| == |ys| && RealIndexes(idx0, |a0| - 2) && RealIndexes(idx1, |a1| - 2)
    requires 0 <= x0 <= xoff <= xlim <= x1 <= |xs| && 0 <= y0 <= yoff <= ylim <= y1 <= |ys|
    requires xs[x0..xoff] == ys[y0..yoff] && xs[xlim..x1] == ys[ylim..y1]
    requires xoff < xlim && yoff < ylim ==> xs[xoff] != ys[yoff] && xs[xlim - 1] != ys[ylim - 1]
    requires NoneMarkedIn(a0, idx0, x0, x1) && NoneMarkedIn(a1, idx1, y0, y1)
    requires OnlyIn(a0, c0, idx0, xoff, xlim) && OnlyIn(a1, c1, idx1, yoff, ylim)
    requires TracedCore(xs, ys, Virtual(c0, idx0), Virtual(c1, idx1), xoff, xlim, yoff, ylim, effort)
    ensures Traced(xs, ys, Virtual(c0, idx0), Virtual(c1, idx1), x0, x1, y0, y1, effort)
  {
    hide TracedCore;
    OnlyInVirtual(a0, c0, idx0, xoff, xlim);
    OnlyInVirtual(a1, c1, idx1, yoff, ylim);
    assert Trims(xs, ys, Virtual(c0, idx0), Virtual(c1, idx1), x0, xoff, xlim, x1, y0, yoff, ylim, y1);
  }

  lemma OneSideEmpty(xs: seq<int>, ys: seq<int>, v0: seq<bool>, v1: seq<bool>, x0: int, x1: int, y0: int, y1: int,
                     effort: Effort)
    requires |v0| == |xs| && |v1| == |ys| && 0 <= x0 <= x1 <= |xs| && 0 <= y0 <= y1 <= |ys| && (x0 == x1 || y0 == y1)
    requires (forall i :: x0 <= i < x1 ==> v0[i]) && (forall i :: y0 <= i < y1 ==> v1[i])
    ensures TracedCore(xs, ys, v0, v1, x0, x1, y0, y1, effort)
  {
  }

  lemma OnlyInWiden(before: seq<bool>, after: seq<bool>, idx: seq<int>, x0: int, lo: int, hi: int, x1: int)
    requires 0 <= x0 <= lo <= hi <= x1 <= |idx| && OnlyIn(before, after, idx, lo, hi)
    ensures OnlyIn(before, after, idx, x0, x1)
  {
    OnlyInJoin(before, before, after, idx, x0, lo, lo, lo, hi, x1);
  }

  /**
    Marks the changed lines of a box.  Whatever split the search proposes, the recursion ends and the
    unmarked lines of the two sides are pairwise equal.  The number of marked lines is the distance of the box
    with `findMinimal`, and without it as long as the distance is small enough for the heuristics to stay out
    of play.  In any case the marks come from dividing the box at splits that the search may propose.
   */
  method CompareSeq(xs: seq<int>, ys: seq<int>, idx0: seq<int>, idx1: seq<int>, changed0: array<bool>,
                    changed1: array<bool>, fd: array<int>, bd: array<int>, x0: int, x1: int, y0: int, y1: int,
                    findMinimal: bool, speedLargeFiles: bool, tooExpensive: int)
    requires Layout(xs, ys, idx0, idx1, changed0, changed1, fd, bd) && tooExpensive >= 256
    requires 0 <= x0 <= x1 <= |xs| && 0 <= y0 <= y1 <= |ys|
    requires NoneMarkedIn(changed0[..], idx0, x0, x1) && NoneMarkedIn(changed1[..], idx1, y0, y1)
    modifies changed0, changed1, fd, bd
    ensures OnlyIn(old(changed0[..]), changed0[..], idx0, x0, x1)
    ensures OnlyIn(old(changed1[..]), changed1[..], idx1, y0, y1)
    ensures Compared(xs, ys, Virtual(changed0[..], idx0), Virtual(changed1[..], idx1), x0, x1, y0, y1,
                     Exactly(xs, ys, x0, x1, y0, y1, Effort(findMinimal, speedLargeFiles, tooExpensive)))
    ensures Traced(xs, ys, Virtual(changed0[..], idx0), Virtual(changed1[..], idx1), x0, x1, y0, y1,
                   Effort(findMinimal, speedLargeFiles, tooExpensive))
    decreases x1 - x0 + y1 - y0
  {
    hide Dist, Compared, Virtual, OnlyIn, RealIndexes, Exactly, Traced, TracedCore, Proposed, MiddleSnake.ExactSplit,
         MiddleSnake.HeuristicSplit, MiddleSnake.Prompt, MiddleSnake.Searched;
    ghost var effort := Effort(findMinimal, speedLargeFiles, tooExpensive);
    ghost var exact := Exactly(xs, ys, x0, x1, y0, y1, effort);
    var xoff, xlim, yoff, ylim := Slide(xs, ys, x0, x1, y0, y1);
    ghost var a0, a1 := changed0[..], changed1[..];
    OnlyInSelf(a0, idx0, xoff);
    OnlyInSelf(a1, idx1, yoff);
    if xoff == xlim {
      MarkRange(changed1, idx1, yoff, ylim);
      ComparedEmpty(xs, ys, Virtual(a0, idx0), Virtual(changed1[..], idx1), xoff, xlim, yoff, ylim, exact);
      OneSideEmpty(xs, ys, Virtual(a0, idx0), Virtual(changed1[..], idx1), xoff, xlim, yoff, ylim, effort);
    } else if yoff == ylim {
      MarkRange(changed0, idx0, xoff, xlim);
      ComparedEmpty(xs, ys, Virtual(changed0[..], idx0), Virtual(a1, idx1), xoff, xlim, yoff, ylim, exact);
      OneSideEmpty(xs, ys, Virtual(changed0[..], idx0), Virtual(a1, idx1), xoff, xlim, yoff, ylim, effort);
    } else {
      NoneMarkedPart(a0, idx0, x0, x1, xoff, xlim);
      NoneMarkedPart(a1, idx1, y0, y1, yoff, ylim);
      var b := EditGrid.Box(xs, ys, xoff, xlim, yoff, ylim);
      ExactlyCore(xs, ys, x0, x1, y0, y1, xoff, xlim, yoff, ylim, effort);
      var c, part := MiddleSnake.Diag(b, fd, bd, findMinimal, speedLargeFiles, tooExpensive);
      assert c != 1;
      DiagProposes(b, c, fd[..], bd[..], part, effort);
      if exact {
        SplitDistances(b, c, part);
      }
      NoneMarkedPart(a0, idx0, x0, x1, xoff, part.xmid);
      NoneMarkedPart(a1, idx1, y0, y1, yoff, part.ymid);
      NoneMarkedPart(a0, idx0, x0, x1, part.xmid, xlim);
      NoneMarkedPart(a1, idx1, y0, y1, part.ymid, ylim);
      CompareSeq(xs, ys, idx0, idx1, changed0, changed1, fd, bd, xoff, part.xmid, yoff, part.ymid, part.loMinimal,
                 speedLargeFiles, tooExpensive);
      ghost var b0, b1 := changed0[..], changed1[..];
      ExactlyMeans(xs, ys, Virtual(b0, idx0), Virtual(b1, idx1), xoff, part.xmid, yoff, part.ymid,
                   effort.(findMinimal := part.loMinimal));
      StillNoneMarked(a0, b0, idx0, xoff, part.xmid, part.xmid, xlim);
      StillNoneMarked(a1, b1, idx1, yoff, part.ymid, part.ymid, ylim);
      CompareSeq(xs, ys, idx0, idx1, changed0, changed1, fd, bd, part.xmid, xlim, part.ymid, ylim, part.hiMinimal,
                 speedLargeFiles, tooExpensive);
      ExactlyMeans(xs, ys, Virtual(changed0[..], idx0), Virtual(changed1[..], idx1), part.xmid, xlim, part.ymid, ylim,
                   effort.(findMinimal := part.hiMinimal));
      HalvesDone(xs, ys, idx0, idx1, a0, a1, b0, b1, changed0[..], changed1[..],
                 xoff, part.xmid, xlim, yoff, part.ymid, ylim, part.loMinimal, part.hiMinimal, exact);
      OnlyInVirtual(b0, changed0[..], idx0, part.xmid, xlim);
      OnlyInVirtual(b1, changed1[..], idx1, part.ymid, ylim);
      CoreDivided(xs, ys, Virtual(b0, idx0), Virtual(b1, idx1), Virtual(changed0[..], idx0),
                  Virtual(changed1[..], idx1), b, part, effort);
    }
    CoreDone(xs, ys, idx0, idx1, a0, a1, changed0[..], changed1[..], x0, xoff, xlim, x1, y0, yoff, ylim, y1, exact);
    TracedDone(xs, ys, idx0, idx1, a0, a1, changed0[..], changed1[..], x0, xoff, xlim, x1, y0, yoff, ylim, y1, effort);
  }
}
