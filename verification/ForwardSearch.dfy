/** One round of the search from the beginnings of the two runs of lines. */
module ForwardSearch {
  import opened EditDistance
  import opened EditGrid
  import opened Frontier

  /** A point reached with c changes is not beyond the extended entry of its diagonal. */
  lemma {:induction false} FwdCoverPoint(b: Box, v: seq<int>, lo: int, hi: int, c: int, x: int, y: int)
    requires Fits(b, v) && c >= 1
    requires Window(b, b.Fmid(), lo, hi, c - 1) && Window(b, b.Fmid(), NextLo(b, lo), NextHi(b, hi), c)
    requires FwdCover(b, v, lo, hi, c - 1) && AllFwdExtended(b, v, NextLo(b, lo), NextHi(b, hi), c)
    requires b.In(x, y) && b.Fwd(x, y) <= c && Live(x - y, b.Fmid(), c)
    ensures NextLo(b, lo) <= x - y <= NextHi(b, hi) && x <= At(b, v, x - y)
    decreases x + y
  {
    hide Dist, Live, NextLo, NextHi, Window;
    MidInWindow(b, b.Fmid(), NextLo(b, lo), NextHi(b, hi), c);
    if x == b.xoff && y == b.yoff {
      assert FwdExtended(b, v, c, b.Fmid());
    } else if b.Match(x - 1, y - 1) {
      b.MatchKeeps(x - 1, y - 1);
      assert Live(x - 1 - (y - 1), b.Fmid(), c) by { assert x - 1 - (y - 1) == x - y; }
      FwdCoverPoint(b, v, lo, hi, c, x - 1, y - 1);
      assert FwdExtended(b, v, c, x - y);
    } else {
      var px, py := b.FwdBefore(x, y);
      NextLive(b, b.Fmid(), lo, hi, c, px - py, x - y);
      assert FwdExtended(b, v, c, x - y);
    }
  }

  lemma FwdCoverNext(b: Box, v: seq<int>, lo: int, hi: int, c: int)
    requires Fits(b, v) && c >= 1
    requires Window(b, b.Fmid(), lo, hi, c - 1) && Window(b, b.Fmid(), NextLo(b, lo), NextHi(b, hi), c)
    requires FwdCover(b, v, lo, hi, c - 1) && AllFwdExtended(b, v, NextLo(b, lo), NextHi(b, hi), c)
    ensures FwdFrontier(b, v, NextLo(b, lo), NextHi(b, hi), c)
  {
    forall x, y | b.In(x, y) && b.Fwd(x, y) <= c && Live(x - y, b.Fmid(), c)
      ensures NextLo(b, lo) <= x - y <= NextHi(b, hi) && x <= At(b, v, x - y)
    {
      FwdCoverPoint(b, v, lo, hi, c, x, y);
    }
    forall d | NextLo(b, lo) <= d <= NextHi(b, hi) && Live(d, b.Fmid(), c)
      ensures b.FwdReach(c, d, At(b, v, d))
    {
      assert FwdExtended(b, v, c, d);
    }
  }

  /** Writing a diagonal of this round disturbs neither last round's entries nor the diagonals already done. */
  lemma FwdStored(b: Box, v: seq<int>, w: seq<int>, lo: int, hi: int, c: int, d: int)
    requires Fits(b, v) && Fits(b, w) && c >= 1
    requires Window(b, b.Fmid(), lo, hi, c - 1) && Window(b, b.Fmid(), NextLo(b, lo), NextHi(b, hi), c)
    requires NextLo(b, lo) <= d <= NextHi(b, hi) && Live(d, b.Fmid(), c)
    requires AllFwdReadable(b, v, lo, hi, c - 1) && FwdCover(b, v, lo, hi, c - 1)
    requires AllFwdExtended(b, v, d + 2, NextHi(b, hi), c)
    requires forall k :: 0 <= k < |v| && k != Index(b, d) ==> w[k] == v[k]
    requires FwdExtended(b, w, c, d)
    ensures AllFwdReadable(b, w, lo, hi, c - 1) && FwdCover(b, w, lo, hi, c - 1)
    ensures AllFwdExtended(b, w, d, NextHi(b, hi), c)
  {
    hide Dist, Live, Box.FwdReach, Box.Match, NextLo, NextHi;
    forall k | d <= k <= NextHi(b, hi) && Live(k, b.Fmid(), c)
      ensures FwdExtended(b, w, c, k)
    {
      if k > d {
        SameParity(d, k, b.Fmid(), c);
        assert FwdExtended(b, v, c, k);
      }
    }
    forall k {:trigger FwdReadable(b, w, lo, hi, c - 1, k)} | NextLo(b, lo) - 1 <= k <= NextHi(b, hi) + 1
      && Live(k, b.Fmid(), c - 1)
      ensures FwdReadable(b, w, lo, hi, c - 1, k)
    {
      OtherParity(d, k, b.Fmid(), c);
      assert FwdReadable(b, v, lo, hi, c - 1, k);
    }
    forall x, y {:trigger b.Fwd(x, y)} | b.In(x, y) && b.Fwd(x, y) <= c - 1 && Live(x - y, b.Fmid(), c - 1)
      ensures lo <= x - y <= hi && x <= At(b, w, x - y)
    {
      OtherParity(d, x - y, b.Fmid(), c);
    }
  }

  lemma ApartStored(b: Box, v: seq<int>, f: seq<int>, w: seq<int>, fmax: int, bmin: int, bmax: int, c: int, d: int)
    requires Fits(b, v) && Fits(b, f) && Fits(b, w) && b.Dmin() <= d <= fmax <= b.Dmax() && Live(d, b.Fmid(), c)
    requires Apart(b, v, w, d + 2, fmax, bmin, bmax, c)
    requires forall k :: 0 <= k < |v| && k != Index(b, d) ==> f[k] == v[k]
    requires bmin <= d <= bmax ==> At(b, f, d) < At(b, w, d)
    ensures Apart(b, f, w, d, fmax, bmin, bmax, c)
  {
    forall k {:trigger At(b, f, k)} | d <= k <= fmax && bmin <= k <= bmax && Live(k, b.Fmid(), c)
      ensures At(b, f, k) < At(b, w, k)
    {
      if k != d {
        SameParity(d, k, b.Fmid(), c);
        assert At(b, v, k) < At(b, w, k);
      }
    }
  }

  // ----- long snakes

  /** On this diagonal the round followed more than SNAKE_LIMIT matching lines. */
  ghost predicate LongAt(b: Box, v: seq<int>, d: int) {
    Fits(b, v) && b.Dmin() <= d <= b.Dmax() && At(b, v, d) - Max(At(b, v, d - 1) + 1, At(b, v, d + 1)) > SNAKE_LIMIT
  }

  /** So it did on some diagonal from `from` on. */
  ghost predicate LongSnake(b: Box, v: seq<int>, from: int, hi: int, c: int) {
    exists d :: from <= d <= hi && Live(d, b.Fmid(), c) && LongAt(b, v, d)
  }

  lemma NoneLongYet(b: Box, v: seq<int>, hi: int, c: int)
    ensures !LongSnake(b, v, hi + 2, hi, c)
  {
  }

  lemma LongSnakeStored(b: Box, v: seq<int>, w: seq<int>, hi: int, c: int, d: int)
    requires Fits(b, v) && b.Dmin() <= d <= hi <= b.Dmax() && Live(d, b.Fmid(), c)
    requires |w| == |v| && forall k :: 0 <= k < |v| && k != Index(b, d) ==> w[k] == v[k]
    ensures LongSnake(b, w, d, hi, c) <==> LongSnake(b, v, d + 2, hi, c) || LongAt(b, w, d)
  {
    hide LongAt;
    forall k | d + 2 <= k <= hi
      ensures LongAt(b, w, k) <==> LongAt(b, v, k)
    {
      LongAtKept(b, v, w, d, k);
    }
    forall k | d <= k <= hi && Live(k, b.Fmid(), c) && k != d
      ensures d + 2 <= k
    {
      SameParity(d, k, b.Fmid(), c);
    }
  }

  lemma LongAtKept(b: Box, v: seq<int>, w: seq<int>, d: int, k: int)
    requires Fits(b, v) && b.Dmin() <= d && d + 2 <= k <= b.Dmax()
    requires |w| == |v| && forall k :: 0 <= k < |v| && k != Index(b, d) ==> w[k] == v[k]
    ensures LongAt(b, w, k) <==> LongAt(b, v, k)
  {
  }

  /** The entries of a finished round, with those of the round before it in between. */
  ghost predicate FwdRound(b: Box, v: seq<int>, lo: int, hi: int, c: int) {
    && FwdFrontier(b, v, lo, hi, c)
    && exists lo0, hi0 :: FwdRoundFrom(b, v, lo0, hi0, lo, hi, c)
  }

  ghost predicate FwdRoundFrom(b: Box, v: seq<int>, lo0: int, hi0: int, lo: int, hi: int, c: int)
    requires Fits(b, v)
  {
    && Window(b, b.Fmid(), lo0, hi0, c - 1) && Window(b, b.Fmid(), lo, hi, c)
    && lo == NextLo(b, lo0) && hi == NextHi(b, hi0)
    && AllFwdReadable(b, v, lo0, hi0, c - 1) && FwdCover(b, v, lo0, hi0, c - 1)
  }

  /** Moves the live range on by one round and puts sentinels next to its new ends. */
  method ForwardWiden(b: Box, fd: array<int>, ghost c: int, fmin0: int, fmax0: int) returns (fmin: int, fmax: int)
    requires c >= 1 && FwdFrontier(b, fd[..], fmin0, fmax0, c - 1)
    modifies fd
    ensures Fits(b, fd[..]) && fmin == NextLo(b, fmin0) && fmax == NextHi(b, fmax0)
    ensures Window(b, b.Fmid(), fmin, fmax, c)
    ensures AllFwdReadable(b, fd[..], fmin0, fmax0, c - 1) && FwdCover(b, fd[..], fmin0, fmax0, c - 1)
  {
    NextWindow(b, b.Fmid(), fmin0, fmax0, c);
    ghost var v := fd[..];
    fmin, fmax := fmin0, fmax0;
    if fmin > b.Dmin() {
      fmin := fmin - 1;
      fd[Index(b, fmin - 1)] := -1;
    } else {
      fmin := fmin + 1;
    }
    if fmax < b.Dmax() {
      fmax := fmax + 1;
      fd[Index(b, fmax + 1)] := -1;
    } else {
      fmax := fmax - 1;
    }
    FwdWidened(b, v, fd[..], fmin0, fmax0, c);
  }

  lemma FwdWidened(b: Box, v: seq<int>, w: seq<int>, lo: int, hi: int, c: int)
    requires c >= 1 && FwdFrontier(b, v, lo, hi, c - 1) && Fits(b, w)
    requires Window(b, b.Fmid(), NextLo(b, lo), NextHi(b, hi), c)
    requires forall k :: Index(b, lo) <= k <= Index(b, hi) ==> w[k] == v[k]
    requires NextLo(b, lo) < lo ==> w[Index(b, NextLo(b, lo) - 1)] == -1
    requires NextHi(b, hi) > hi ==> w[Index(b, NextHi(b, hi) + 1)] == -1
    ensures AllFwdReadable(b, w, lo, hi, c - 1) && FwdCover(b, w, lo, hi, c - 1)
  {
    hide Dist, Live, Box.FwdReach, NextLo, NextHi;
    forall k {:trigger FwdReadable(b, w, lo, hi, c - 1, k)} | NextLo(b, lo) - 1 <= k <= NextHi(b, hi) + 1
      && Live(k, b.Fmid(), c - 1)
      ensures FwdReadable(b, w, lo, hi, c - 1, k)
    {
      if lo <= k <= hi {
        assert b.FwdReach(c - 1, k, At(b, v, k));
      } else {
        JustOutside(b, b.Fmid(), lo, hi, c, k);
      }
    }
  }

  /** Steps diagonal d from its better neighbour and follows the matching lines. */
  method ForwardExtend(b: Box, tlo: int, thi: int, ghost c: int, d: int, ghost lo: int, ghost hi: int)
    returns (oldx: int, x: int)
    requires b.Valid() && c >= 1 && b.Dmin() <= d <= b.Dmax()
    requires lo <= d - 1 <= hi || lo <= d + 1 <= hi
    requires if lo <= d - 1 <= hi then b.FwdReach(c - 1, d - 1, tlo) else tlo == -1
    requires if lo <= d + 1 <= hi then b.FwdReach(c - 1, d + 1, thi) else thi == -1
    ensures oldx == Max(tlo + 1, thi) && oldx <= x
    ensures b.FwdReach(c, d, x) && !b.Match(x, x - d)
  {
    if tlo >= thi {
      x := tlo + 1;
      b.FwdRight(c - 1, d, tlo);
    } else {
      x := thi;
      b.FwdDown(c - 1, d, thi);
    }
    oldx := x;
    var y := x - d;
    while x < b.xlim && y < b.ylim && b.xs[x] == b.ys[y]
      invariant y == x - d && oldx <= x && b.FwdReach(c, d, x)
      decreases b.xlim - x
    {
      b.FwdSnake(c, d, x);
      x, y := x + 1, y + 1;
    }
  }

  /** Extends diagonal d in place. */
  method ForwardStep(b: Box, fd: array<int>, ghost c: int, d: int, ghost lo: int, ghost hi: int)
    returns (x: int, big: bool)
    requires c >= 1 && Fits(b, fd[..])
    requires Window(b, b.Fmid(), lo, hi, c - 1) && Window(b, b.Fmid(), NextLo(b, lo), NextHi(b, hi), c)
    requires NextLo(b, lo) <= d <= NextHi(b, hi) && Live(d, b.Fmid(), c)
    requires AllFwdReadable(b, fd[..], lo, hi, c - 1) && FwdCover(b, fd[..], lo, hi, c - 1)
    requires AllFwdExtended(b, fd[..], d + 2, NextHi(b, hi), c)
    modifies fd
    ensures Fits(b, fd[..]) && fd[..] == old(fd[..])[Index(b, d) := x]
    ensures AllFwdReadable(b, fd[..], lo, hi, c - 1) && FwdCover(b, fd[..], lo, hi, c - 1)
    ensures AllFwdExtended(b, fd[..], d, NextHi(b, hi), c)
    ensures b.FwdReach(c, d, x) && (big <==> LongAt(b, fd[..], d))
  {
    hide Dist, Live, Box.FwdReach, Box.Match, NextLo, NextHi, FwdCover, AllFwdExtended;
    ghost var v := fd[..];
    NeighbourLive(b, b.Fmid(), lo, hi, c, d);
    assert FwdReadable(b, v, lo, hi, c - 1, d - 1) && FwdReadable(b, v, lo, hi, c - 1, d + 1);
    var oldx;
    oldx, x := ForwardExtend(b, fd[Index(b, d - 1)], fd[Index(b, d + 1)], c, d, lo, hi);
    big := x - oldx > SNAKE_LIMIT;
    fd[Index(b, d)] := x;
    FwdStored(b, v, fd[..], lo, hi, c, d);
  }

  lemma NothingExtendedYet(b: Box, f: seq<int>, w: seq<int>, fmax: int, bmin: int, bmax: int, c: int)
    requires Fits(b, f) && Fits(b, w) && b.Dmin() <= fmax <= b.Dmax()
    ensures AllFwdExtended(b, f, fmax + 2, fmax, c) && Apart(b, f, w, fmax + 2, fmax, bmin, bmax, c)
  {
  }

  /** One edit step of the search from the beginnings; stops as soon as it meets the search from the ends. */
  method ForwardPass(b: Box, fd: array<int>, bd: array<int>, ghost c: int, odd: bool, fmin0: int, fmax0: int, bmin: int,
                     bmax: int)
    returns (fmin: int, fmax: int, bigSnake: bool, met: bool, d: int, xmid: int, ghost u: int)
    requires c >= 1 && fd != bd
    requires odd == ((b.Fmid() - b.Bmid()) % 2 != 0)
    requires FwdFrontier(b, fd[..], fmin0, fmax0, c - 1)
    requires BwdFrontier(b, bd[..], bmin, bmax, c - 1)
    modifies fd
    ensures Fits(b, fd[..])
    ensures met ==> odd && b.FwdReach(c, d, xmid) && u <= xmid && b.BwdReach(c - 1, d, u)
    ensures !met ==> FwdFrontier(b, fd[..], fmin, fmax, c)
    ensures !met ==> FwdRound(b, fd[..], fmin, fmax, c) && (bigSnake <==> LongSnake(b, fd[..], fmin, fmax, c))
    ensures !met && odd ==> Apart(b, fd[..], bd[..], fmin, fmax, bmin, bmax, c)
  {
    hide Dist, Live, Box.FwdReach, Box.BwdReach, NextLo, NextHi, AllFwdReadable, FwdCover, BwdCover, AllFwdExtended,
         Apart, LongSnake, LongAt;
    bigSnake, met, xmid, u := false, false, 0, 0;
    fmin, fmax := ForwardWiden(b, fd, c, fmin0, fmax0);
    d := fmax;
    NothingExtendedYet(b, fd[..], bd[..], fmax, bmin, bmax, c);
    NoneLongYet(b, fd[..], fmax, c);
    while d >= fmin
      invariant Fits(b, fd[..])
      invariant fmin - 2 <= d <= fmax && Live(d, b.Fmid(), c)
      invariant AllFwdReadable(b, fd[..], fmin0, fmax0, c - 1)
      invariant FwdCover(b, fd[..], fmin0, fmax0, c - 1)
      invariant AllFwdExtended(b, fd[..], d + 2, fmax, c)
      invariant bigSnake <==> LongSnake(b, fd[..], d + 2, fmax, c)
      invariant odd ==> Apart(b, fd[..], bd[..], d + 2, fmax, bmin, bmax, c)
    {
      ghost var v := fd[..];
      var x, big := ForwardStep(b, fd, c, d, fmin0, fmax0);
      bigSnake := bigSnake || big;
      LongSnakeStored(b, v, fd[..], fmax, c, d);
      if odd && bmin <= d <= bmax && bd[Index(b, d)] <= x {
        met, xmid, u := true, x, bd[Index(b, d)];
        OtherSearchLive(b, c, d);
        assert b.BwdReach(c - 1, d, At(b, bd[..], d));
        return;
      }
      if odd {
        ApartStored(b, v, fd[..], bd[..], fmax, bmin, bmax, c, d);
      }
      StepLive(d, b.Fmid(), c);
      d := d - 2;
    }
    SameParity(d, fmin, b.Fmid(), c);
    FwdCoverNext(b, fd[..], fmin0, fmax0, c);
    assert FwdRoundFrom(b, fd[..], fmin0, fmax0, fmin, fmax, c);
  }
}
