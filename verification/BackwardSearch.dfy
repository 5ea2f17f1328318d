/** One round of the search from the ends of the two runs of lines. */
module BackwardSearch {
  import opened EditDistance
  import opened EditGrid
  import opened Frontier

  /** A point c changes from the end is not before the extended entry of its diagonal. */
  lemma {:induction false} BwdCoverPoint(b: Box, v: seq<int>, lo: int, hi: int, c: int, x: int, y: int)
    requires Fits(b, v) && c >= 1
    requires Window(b, b.Bmid(), lo, hi, c - 1) && Window(b, b.Bmid(), NextLo(b, lo), NextHi(b, hi), c)
    requires BwdCover(b, v, lo, hi, c - 1) && AllBwdExtended(b, v, NextLo(b, lo), NextHi(b, hi), c)
    requires b.In(x, y) && b.Bwd(x, y) <= c && Live(x - y, b.Bmid(), c)
    ensures NextLo(b, lo) <= x - y <= NextHi(b, hi) && At(b, v, x - y) <= x
    decreases b.xlim - x + b.ylim - y
  {
    hide Dist, Live, NextLo, NextHi, Window;
    MidInWindow(b, b.Bmid(), NextLo(b, lo), NextHi(b, hi), c);
    if x == b.xlim && y == b.ylim {
      assert BwdExtended(b, v, c, b.Bmid());
    } else if b.Match(x, y) {
      b.MatchKeeps(x, y);
      assert Live(x + 1 - (y + 1), b.Bmid(), c) by { assert x + 1 - (y + 1) == x - y; }
      BwdCoverPoint(b, v, lo, hi, c, x + 1, y + 1);
      assert BwdExtended(b, v, c, x - y);
    } else {
      var px, py := b.BwdAfter(x, y);
      NextLive(b, b.Bmid(), lo, hi, c, px - py, x - y);
      assert BwdExtended(b, v, c, x - y);
    }
  }

  lemma BwdCoverNext(b: Box, v: seq<int>, lo: int, hi: int, c: int)
    requires Fits(b, v) && c >= 1
    requires Window(b, b.Bmid(), lo, hi, c - 1) && Window(b, b.Bmid(), NextLo(b, lo), NextHi(b, hi), c)
    requires BwdCover(b, v, lo, hi, c - 1) && AllBwdExtended(b, v, NextLo(b, lo), NextHi(b, hi), c)
    ensures BwdFrontier(b, v, NextLo(b, lo), NextHi(b, hi), c)
  {
    forall x, y | b.In(x, y) && b.Bwd(x, y) <= c && Live(x - y, b.Bmid(), c)
      ensures NextLo(b, lo) <= x - y <= NextHi(b, hi) && At(b, v, x - y) <= x
    {
      BwdCoverPoint(b, v, lo, hi, c, x, y);
    }
    forall d | NextLo(b, lo) <= d <= NextHi(b, hi) && Live(d, b.Bmid(), c)
      ensures b.BwdReach(c, d, At(b, v, d))
    {
      assert BwdExtended(b, v, c, d);
    }
  }

  /** Writing a diagonal of this round disturbs neither last round's entries nor the diagonals already done. */
  lemma BwdStored(b: Box, v: seq<int>, w: seq<int>, lo: int, hi: int, c: int, d: int)
    requires Fits(b, v) && Fits(b, w) && c >= 1
    requires Window(b, b.Bmid(), lo, hi, c - 1) && Window(b, b.Bmid(), NextLo(b, lo), NextHi(b, hi), c)
    requires NextLo(b, lo) <= d <= NextHi(b, hi) && Live(d, b.Bmid(), c)
    requires AllBwdReadable(b, v, lo, hi, c - 1) && BwdCover(b, v, lo, hi, c - 1)
    requires AllBwdExtended(b, v, d + 2, NextHi(b, hi), c)
    requires forall k :: 0 <= k < |v| && k != Index(b, d) ==> w[k] == v[k]
    requires BwdExtended(b, w, c, d)
    ensures AllBwdReadable(b, w, lo, hi, c - 1) && BwdCover(b, w, lo, hi, c - 1)
    ensures AllBwdExtended(b, w, d, NextHi(b, hi), c)
  {
    hide Dist, Live, Box.BwdReach, Box.Match, NextLo, NextHi;
    forall k | d <= k <= NextHi(b, hi) && Live(k, b.Bmid(), c)
      ensures BwdExtended(b, w, c, k)
    {
      if k > d {
        SameParity(d, k, b.Bmid(), c);
        assert BwdExtended(b, v, c, k);
      }
    }
    forall k {:trigger BwdReadable(b, w, lo, hi, c - 1, k)} | NextLo(b, lo) - 1 <= k <= NextHi(b, hi) + 1
      && Live(k, b.Bmid(), c - 1)
      ensures BwdReadable(b, w, lo, hi, c - 1, k)
    {
      OtherParity(d, k, b.Bmid(), c);
      assert BwdReadable(b, v, lo, hi, c - 1, k);
    }
    forall x, y {:trigger b.Bwd(x, y)} | b.In(x, y) && b.Bwd(x, y) <= c - 1 && Live(x - y, b.Bmid(), c - 1)
      ensures lo <= x - y <= hi && At(b, w, x - y) <= x
    {
      OtherParity(d, x - y, b.Bmid(), c);
    }
  }

  lemma ApartStored(b: Box, f: seq<int>, v: seq<int>, w: seq<int>, bmax: int, fmin: int, fmax: int, c: int, d: int)
    requires Fits(b, f) && Fits(b, v) && Fits(b, w) && b.Dmin() <= d <= bmax <= b.Dmax() && Live(d, b.Fmid(), c)
    requires Apart(b, f, v, d + 2, bmax, fmin, fmax, c)
    requires forall k :: 0 <= k < |v| && k != Index(b, d) ==> w[k] == v[k]
    requires fmin <= d <= fmax ==> At(b, f, d) < At(b, w, d)
    ensures Apart(b, f, w, d, bmax, fmin, fmax, c)
  {
    forall k {:trigger At(b, f, k)} | d <= k <= bmax && fmin <= k <= fmax && Live(k, b.Fmid(), c)
      ensures At(b, f, k) < At(b, w, k)
    {
      if k != d {
        SameParity(d, k, b.Fmid(), c);
        assert At(b, f, k) < At(b, v, k);
      }
    }
  }

  // ----- long snakes

  /** On this diagonal the round followed more than SNAKE_LIMIT matching lines. */
  ghost predicate LongAt(b: Box, v: seq<int>, d: int) {
    Fits(b, v) && b.Dmin() <= d <= b.Dmax() && Min(At(b, v, d - 1), At(b, v, d + 1) - 1) - At(b, v, d) > SNAKE_LIMIT
  }

  /** So it did on some diagonal from `from` on. */
  ghost predicate LongSnake(b: Box, v: seq<int>, from: int, hi: int, c: int) {
    exists d :: from <= d <= hi && Live(d, b.Bmid(), c) && LongAt(b, v, d)
  }

  lemma NoneLongYet(b: Box, v: seq<int>, hi: int, c: int)
    ensures !LongSnake(b, v, hi + 2, hi, c)
  {
  }

  lemma LongSnakeStored(b: Box, v: seq<int>, w: seq<int>, hi: int, c: int, d: int)
    requires Fits(b, v) && b.Dmin() <= d <= hi <= b.Dmax() && Live(d, b.Bmid(), c)
    requires |w| == |v| && forall k :: 0 <= k < |v| && k != Index(b, d) ==> w[k] == v[k]
    ensures LongSnake(b, w, d, hi, c) <==> LongSnake(b, v, d + 2, hi, c) || LongAt(b, w, d)
  {
    hide LongAt;
    forall k | d + 2 <= k <= hi
      ensures LongAt(b, w, k) <==> LongAt(b, v, k)
    {
      LongAtKept(b, v, w, d, k);
    }
    forall k | d <= k <= hi && Live(k, b.Bmid(), c) && k != d
      ensures d + 2 <= k
    {
      SameParity(d, k, b.Bmid(), c);
    }
  }

  lemma LongAtKept(b: Box, v: seq<int>, w: seq<int>, d: int, k: int)
    requires Fits(b, v) && b.Dmin() <= d && d + 2 <= k <= b.Dmax()
    requires |w| == |v| && forall k :: 0 <= k < |v| && k != Index(b, d) ==> w[k] == v[k]
    ensures LongAt(b, w, k) <==> LongAt(b, v, k)
  {
  }

  /** The entries of a finished round, with those of the round before it in between. */
  ghost predicate BwdRound(b: Box, v: seq<int>, lo: int, hi: int, c: int) {
    && BwdFrontier(b, v, lo, hi, c)
    && exists lo0, hi0 :: BwdRoundFrom(b, v, lo0, hi0, lo, hi, c)
  }

  ghost predicate BwdRoundFrom(b: Box, v: seq<int>, lo0: int, hi0: int, lo: int, hi: int, c: int)
    requires Fits(b, v)
  {
    && Window(b, b.Bmid(), lo0, hi0, c - 1) && Window(b, b.Bmid(), lo, hi, c)
    && lo == NextLo(b, lo0) && hi == NextHi(b, hi0)
    && AllBwdReadable(b, v, lo0, hi0, c - 1) && BwdCover(b, v, lo0, hi0, c - 1)
  }

  /** Moves the live range on by one round and puts sentinels next to its new ends. */
  method BackwardWiden(b: Box, bd: array<int>, ghost c: int, bmin0: int, bmax0: int) returns (bmin: int, bmax: int)
    requires c >= 1 && BwdFrontier(b, bd[..], bmin0, bmax0, c - 1)
    modifies bd
    ensures Fits(b, bd[..]) && bmin == NextLo(b, bmin0) && bmax == NextHi(b, bmax0)
    ensures Window(b, b.Bmid(), bmin, bmax, c)
    ensures AllBwdReadable(b, bd[..], bmin0, bmax0, c - 1) && BwdCover(b, bd[..], bmin0, bmax0, c - 1)
  {
    NextWindow(b, b.Bmid(), bmin0, bmax0, c);
    ghost var v := bd[..];
    bmin, bmax := bmin0, bmax0;
    if bmin > b.Dmin() {
      bmin := bmin - 1;
      bd[Index(b, bmin - 1)] := GNULINEREF_MAX;
    } else {
      bmin := bmin + 1;
    }
    if bmax < b.Dmax() {
      bmax := bmax + 1;
      bd[Index(b, bmax + 1)] := GNULINEREF_MAX;
    } else {
      bmax := bmax - 1;
    }
    BwdWidened(b, v, bd[..], bmin0, bmax0, c);
  }

  lemma BwdWidened(b: Box, v: seq<int>, w: seq<int>, lo: int, hi: int, c: int)
    requires c >= 1 && BwdFrontier(b, v, lo, hi, c - 1) && Fits(b, w)
    requires Window(b, b.Bmid(), NextLo(b, lo), NextHi(b, hi), c)
    requires forall k :: Index(b, lo) <= k <= Index(b, hi) ==> w[k] == v[k]
    requires NextLo(b, lo) < lo ==> w[Index(b, NextLo(b, lo) - 1)] == GNULINEREF_MAX
    requires NextHi(b, hi) > hi ==> w[Index(b, NextHi(b, hi) + 1)] == GNULINEREF_MAX
    ensures AllBwdReadable(b, w, lo, hi, c - 1) && BwdCover(b, w, lo, hi, c - 1)
  {
    hide Dist, Live, Box.BwdReach, NextLo, NextHi;
    forall k {:trigger BwdReadable(b, w, lo, hi, c - 1, k)} | NextLo(b, lo) - 1 <= k <= NextHi(b, hi) + 1
      && Live(k, b.Bmid(), c - 1)
      ensures BwdReadable(b, w, lo, hi, c - 1, k)
    {
      if lo <= k <= hi {
        assert b.BwdReach(c - 1, k, At(b, v, k));
      } else {
        JustOutside(b, b.Bmid(), lo, hi, c, k);
      }
    }
  }

  /** Steps diagonal d from its better neighbour and follows the matching lines. */
  method BackwardExtend(b: Box, tlo: int, thi: int, ghost c: int, d: int, ghost lo: int, ghost hi: int)
    returns (oldx: int, x: int)
    requires b.Valid() && |b.xs| < GNULINEREF_MAX && c >= 1 && b.Dmin() <= d <= b.Dmax()
    requires lo <= d - 1 <= hi || lo <= d + 1 <= hi
    requires if lo <= d - 1 <= hi then b.BwdReach(c - 1, d - 1, tlo) else tlo == GNULINEREF_MAX
    requires if lo <= d + 1 <= hi then b.BwdReach(c - 1, d + 1, thi) else thi == GNULINEREF_MAX
    ensures oldx == Min(tlo, thi - 1) && x <= oldx
    ensures b.BwdReach(c, d, x) && !b.Match(x - 1, x - 1 - d)
  {
    if tlo < thi {
      x := tlo;
      b.BwdUp(c - 1, d, tlo);
    } else {
      x := thi - 1;
      b.BwdLeft(c - 1, d, thi);
    }
    oldx := x;
    var y := x - d;
    while x > b.xoff && y > b.yoff && b.xs[x - 1] == b.ys[y - 1]
      invariant y == x - d && x <= oldx && b.BwdReach(c, d, x)
      decreases x - b.xoff
    {
      b.BwdSnake(c, d, x);
      x, y := x - 1, y - 1;
    }
  }

  /** Extends diagonal d in place. */
  method BackwardStep(b: Box, bd: array<int>, ghost c: int, d: int, ghost lo: int, ghost hi: int)
    returns (x: int, big: bool)
    requires c >= 1 && Fits(b, bd[..]) && |b.xs| < GNULINEREF_MAX
    requires Window(b, b.Bmid(), lo, hi, c - 1) && Window(b, b.Bmid(), NextLo(b, lo), NextHi(b, hi), c)
    requires NextLo(b, lo) <= d <= NextHi(b, hi) && Live(d, b.Bmid(), c)
    requires AllBwdReadable(b, bd[..], lo, hi, c - 1) && BwdCover(b, bd[..], lo, hi, c - 1)
    requires AllBwdExtended(b, bd[..], d + 2, NextHi(b, hi), c)
    modifies bd
    ensures Fits(b, bd[..]) && bd[..] == old(bd[..])[Index(b, d) := x]
    ensures AllBwdReadable(b, bd[..], lo, hi, c - 1) && BwdCover(b, bd[..], lo, hi, c - 1)
    ensures AllBwdExtended(b, bd[..], d, NextHi(b, hi), c)
    ensures b.BwdReach(c, d, x) && (big <==> LongAt(b, bd[..], d))
  {
    hide Dist, Live, Box.BwdReach, Box.Match, NextLo, NextHi, BwdCover, AllBwdExtended;
    ghost var v := bd[..];
    NeighbourLive(b, b.Bmid(), lo, hi, c, d);
    assert BwdReadable(b, v, lo, hi, c - 1, d - 1) && BwdReadable(b, v, lo, hi, c - 1, d + 1);
    var oldx;
    oldx, x := BackwardExtend(b, bd[Index(b, d - 1)], bd[Index(b, d + 1)], c, d, lo, hi);
    big := oldx - x > SNAKE_LIMIT;
    bd[Index(b, d)] := x;
    BwdStored(b, v, bd[..], lo, hi, c, d);
  }

  lemma NothingExtendedYet(b: Box, f: seq<int>, w: seq<int>, bmax: int, fmin: int, fmax: int, c: int)
    requires Fits(b, f) && Fits(b, w) && b.Dmin() <= bmax <= b.Dmax()
    ensures AllBwdExtended(b, w, bmax + 2, bmax, c) && Apart(b, f, w, bmax + 2, bmax, fmin, fmax, c)
  {
  }

  /** One edit step of the search from the ends; stops as soon as it meets the search from the beginnings. */
  method BackwardPass(b: Box, fd: array<int>, bd: array<int>, ghost c: int, odd: bool, fmin: int, fmax: int, bmin0: int,
                      bmax0: int)
    returns (bmin: int, bmax: int, bigSnake: bool, met: bool, d: int, xmid: int, ghost u: int)
    requires c >= 1 && bd != fd && |b.xs| < GNULINEREF_MAX
    requires odd == ((b.Fmid() - b.Bmid()) % 2 != 0)
    requires FwdFrontier(b, fd[..], fmin, fmax, c)
    requires BwdFrontier(b, bd[..], bmin0, bmax0, c - 1)
    modifies bd
    ensures Fits(b, bd[..])
    ensures met ==> !odd && b.BwdReach(c, d, xmid) && xmid <= u && b.FwdReach(c, d, u)
    ensures !met ==> BwdFrontier(b, bd[..], bmin, bmax, c)
    ensures !met ==> BwdRound(b, bd[..], bmin, bmax, c) && (bigSnake <==> LongSnake(b, bd[..], bmin, bmax, c))
    ensures !met && !odd ==> Apart(b, fd[..], bd[..], bmin, bmax, fmin, fmax, c)
  {
    hide Dist, Live, Box.FwdReach, Box.BwdReach, NextLo, NextHi, AllBwdReadable, FwdCover, BwdCover, AllBwdExtended,
         Apart, LongSnake, LongAt;
    bigSnake, met, xmid, u := false, false, 0, 0;
    bmin, bmax := BackwardWiden(b, bd, c, bmin0, bmax0);
    d := bmax;
    NothingExtendedYet(b, fd[..], bd[..], bmax, fmin, fmax, c);
    NoneLongYet(b, bd[..], bmax, c);
    while d >= bmin
      invariant Fits(b, bd[..])
      invariant bmin - 2 <= d <= bmax && Live(d, b.Bmid(), c)
      invariant AllBwdReadable(b, bd[..], bmin0, bmax0, c - 1)
      invariant BwdCover(b, bd[..], bmin0, bmax0, c - 1)
      invariant AllBwdExtended(b, bd[..], d + 2, bmax, c)
      invariant bigSnake <==> LongSnake(b, bd[..], d + 2, bmax, c)
      invariant !odd ==> Apart(b, fd[..], bd[..], d + 2, bmax, fmin, fmax, c)
    {
      ghost var v := bd[..];
      var x, big := BackwardStep(b, bd, c, d, bmin0, bmax0);
      bigSnake := bigSnake || big;
      LongSnakeStored(b, v, bd[..], bmax, c, d);
      if !odd {
        SameSearchLive(b, c, d);
      }
      if !odd && fmin <= d <= fmax && x <= fd[Index(b, d)] {
        met, xmid, u := true, x, fd[Index(b, d)];
        assert b.FwdReach(c, d, At(b, fd[..], d));
        return;
      }
      if !odd {
        ApartStored(b, fd[..], v, bd[..], bmax, fmin, fmax, c, d);
      }
      StepLive(d, b.Bmid(), c);
      d := d - 2;
    }
    SameParity(d, bmin, b.Bmid(), c);
    BwdCoverNext(b, bd[..], bmin0, bmax0, c);
    assert BwdRoundFrom(b, bd[..], bmin0, bmax0, bmin, bmax, c);
  }
}
