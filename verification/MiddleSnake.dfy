/**
  The middle-snake search (`diag`): finds a point at which a box of the edit grid may be split.
 */
module MiddleSnake {
  import opened EditDistance
  import opened EditGrid
  import opened Frontier
  import opened ForwardSearch
  import opened BackwardSearch

  datatype Partition = Partition(xmid: int, ymid: int, loMinimal: bool, hiMinimal: bool)

  /** What the caller needs so that both halves are smaller than the whole. */
  predicate Splits(b: Box, part: Partition) {
    b.In(part.xmid, part.ymid) && !b.Corner(part.xmid, part.ymid)
  }

  /** While the searches are apart, the box costs more than the changes both have spent. */
  lemma ApartMeansMore(b: Box, f: seq<int>, w: seq<int>, fmin: int, fmax: int, bmin: int, bmax: int, cf: int, cb: int)
    requires 0 <= cf && 0 <= cb
    requires FwdFrontier(b, f, fmin, fmax, cf) && BwdFrontier(b, w, bmin, bmax, cb)
    requires Apart(b, f, w, fmin, fmax, bmin, bmax, cf) || Apart(b, f, w, bmin, bmax, fmin, fmax, cf)
    requires b.Total() >= cf + cb
    ensures b.Total() > cf + cb
  {
    if b.Total() == cf + cb {
      hide Dist, Live, Window, FwdSound, BwdSound;
      DistShape(b.xs, b.ys, b.xoff, b.xoff, b.yoff, b.yoff);
      var x, y := b.OnTheWay(b.xoff, b.yoff, cf);
      NotApart(b, f, w, fmin, fmax, bmin, bmax, cf, cb, x, y);
    }
  }

  /** A point that both searches can reach with their budgets is witness that they have met on its diagonal. */
  lemma NotApart(b: Box, f: seq<int>, w: seq<int>, fmin: int, fmax: int, bmin: int, bmax: int, cf: int, cb: int, x: int,
                 y: int)
    requires FwdFrontier(b, f, fmin, fmax, cf) && BwdFrontier(b, w, bmin, bmax, cb)
    requires b.In(x, y) && b.Fwd(x, y) == cf && b.Bwd(x, y) == cb
    ensures !Apart(b, f, w, fmin, fmax, bmin, bmax, cf) && !Apart(b, f, w, bmin, bmax, fmin, fmax, cf)
  {
    hide Dist, Live, Window, FwdSound, BwdSound;
    CostGivesLive(b, x, y);
  }

  lemma CostGivesLive(b: Box, x: int, y: int)
    requires b.Valid() && b.In(x, y)
    ensures Live(x - y, b.Fmid(), b.Fwd(x, y)) && Live(x - y, b.Bmid(), b.Bwd(x, y))
  {
    b.FwdParity(x, y);
    b.BwdParity(x, y);
  }

  /** The start: nothing but the corner is reached without a change, because the first lines differ. */
  lemma StartFwd(b: Box, v: seq<int>)
    requires Fits(b, v) && b.Trimmed() && At(b, v, b.Fmid()) == b.xoff
    ensures FwdFrontier(b, v, b.Fmid(), b.Fmid(), 0)
  {
    forall x, y {:trigger b.Fwd(x, y)} | b.In(x, y) && b.Fwd(x, y) <= 0 && Live(x - y, b.Fmid(), 0)
      ensures x - y == b.Fmid() && x <= At(b, v, x - y)
    {
      b.FwdParity(x, y);
      if x > b.xoff {
        DistShape(b.xs, b.ys, b.xoff + 1, x, b.yoff, y);
        DistShape(b.xs, b.ys, b.xoff, x, b.yoff + 1, y);
      }
    }
  }

  lemma StartBwd(b: Box, v: seq<int>)
    requires Fits(b, v) && b.Trimmed() && At(b, v, b.Bmid()) == b.xlim
    ensures BwdFrontier(b, v, b.Bmid(), b.Bmid(), 0)
  {
    forall x, y {:trigger b.Bwd(x, y)} | b.In(x, y) && b.Bwd(x, y) <= 0 && Live(x - y, b.Bmid(), 0)
      ensures x - y == b.Bmid() && At(b, v, x - y) <= x
    {
      b.BwdParity(x, y);
      if x < b.xlim {
        ZeroMeansEqual(b.xs, b.ys, x, b.xlim, y, b.ylim);
      }
    }
  }

  /** How far the reach on diagonal d has come. */
  ghost function ForwardProgress(b: Box, f: seq<int>, d: int): int
    requires Fits(b, f) && b.Dmin() <= d <= b.Dmax()
  {
    (At(b, f, d) - b.xoff) * 2 - (d - b.Fmid())
  }

  ghost function BackwardProgress(b: Box, w: seq<int>, d: int): int
    requires Fits(b, w) && b.Dmin() <= d <= b.Dmax()
  {
    (b.xlim - At(b, w, d)) * 2 + (d - b.Bmid())
  }

  function Abs(d: int): int { if d < 0 then -d else d }

  /** The k-th lines before this point, or after it, match. */
  predicate MatchBefore(b: Box, x: int, y: int, k: int) {
    0 <= x - k < |b.xs| && 0 <= y - k < |b.ys| && b.xs[x - k] == b.ys[y - k]
  }

  predicate MatchAfter(b: Box, x: int, y: int, k: int) {
    0 <= x + k < |b.xs| && 0 <= y + k < |b.ys| && b.xs[x + k] == b.ys[y + k]
  }

  ghost predicate EndsSnake(b: Box, x: int, y: int) {
    forall k :: 1 <= k <= SNAKE_LIMIT ==> MatchBefore(b, x, y, k)
  }

  ghost predicate BeginsSnake(b: Box, x: int, y: int) {
    forall k :: 0 <= k < SNAKE_LIMIT ==> MatchAfter(b, x, y, k)
  }

  /** Far enough for the changes made, strictly inside the box, and behind SNAKE_LIMIT matching lines. */
  ghost predicate ForwardSnake(b: Box, f: seq<int>, c: int, d: int)
    requires Fits(b, f) && b.Dmin() <= d <= b.Dmax()
  {
    var x, y := At(b, f, d), At(b, f, d) - d;
    && ForwardProgress(b, f, d) > 12 * (c + Abs(d - b.Fmid()))
    && b.xoff + SNAKE_LIMIT <= x < b.xlim && b.yoff + SNAKE_LIMIT <= y < b.ylim
    && EndsSnake(b, x, y)
  }

  ghost predicate BackwardSnake(b: Box, w: seq<int>, c: int, d: int)
    requires Fits(b, w) && b.Dmin() <= d <= b.Dmax()
  {
    var x, y := At(b, w, d), At(b, w, d) - d;
    && BackwardProgress(b, w, d) > 12 * (c + Abs(d - b.Bmid()))
    && b.xoff < x <= b.xlim - SNAKE_LIMIT && b.yoff < y <= b.ylim - SNAKE_LIMIT
    && BeginsSnake(b, x, y)
  }

  /**
    Of the live diagonals from `from` on, the one through (x, y) has a snake and the most progress; the one
    with the largest number wins a tie.
   */
  ghost predicate BestForward(b: Box, f: seq<int>, c: int, from: int, fmax: int, best: int, x: int, y: int)
    requires Fits(b, f) && b.Dmin() <= from && fmax <= b.Dmax()
  {
    && (best > 0 ==> from <= x - y <= fmax && Live(x - y, b.Fmid(), c) && ForwardSnake(b, f, c, x - y)
                     && x == At(b, f, x - y) && best == ForwardProgress(b, f, x - y))
    && forall d {:trigger ForwardSnake(b, f, c, d)} ::
         from <= d <= fmax && Live(d, b.Fmid(), c) && ForwardSnake(b, f, c, d) ==>
           ForwardProgress(b, f, d) <= best && (d > x - y ==> ForwardProgress(b, f, d) < best)
  }

  ghost predicate BestBackward(b: Box, w: seq<int>, c: int, from: int, bmax: int, best: int, x: int, y: int)
    requires Fits(b, w) && b.Dmin() <= from && bmax <= b.Dmax()
  {
    && (best > 0 ==> from <= x - y <= bmax && Live(x - y, b.Bmid(), c) && BackwardSnake(b, w, c, x - y)
                     && x == At(b, w, x - y) && best == BackwardProgress(b, w, x - y))
    && forall d {:trigger BackwardSnake(b, w, c, d)} ::
         from <= d <= bmax && Live(d, b.Bmid(), c) && BackwardSnake(b, w, c, d) ==>
           BackwardProgress(b, w, d) <= best && (d > x - y ==> BackwardProgress(b, w, d) < best)
  }

  /** Does the diagonal end in SNAKE_LIMIT matching lines here? */
  method EndsInSnake(b: Box, x: int, y: int) returns (snake: bool)
    requires b.Valid() && b.xoff + SNAKE_LIMIT <= x < b.xlim && b.yoff + SNAKE_LIMIT <= y < b.ylim
    ensures snake <==> EndsSnake(b, x, y)
  {
    var k := 1;
    while b.xs[x - k] == b.ys[y - k]
      invariant 1 <= k <= SNAKE_LIMIT && forall j :: 1 <= j < k ==> MatchBefore(b, x, y, j)
      decreases SNAKE_LIMIT - k
    {
      if k == SNAKE_LIMIT {
        return true;
      }
      k := k + 1;
    }
    assert !MatchBefore(b, x, y, k);
    return false;
  }

  method BeginsWithSnake(b: Box, x: int, y: int) returns (snake: bool)
    requires b.Valid() && b.xoff < x <= b.xlim - SNAKE_LIMIT && b.yoff < y <= b.ylim - SNAKE_LIMIT
    ensures snake <==> BeginsSnake(b, x, y)
  {
    var k := 0;
    while b.xs[x + k] == b.ys[y + k]
      invariant 0 <= k < SNAKE_LIMIT && forall j :: 0 <= j < k ==> MatchAfter(b, x, y, j)
      decreases SNAKE_LIMIT - k
    {
      if k == SNAKE_LIMIT - 1 {
        return true;
      }
      k := k + 1;
    }
    assert !MatchAfter(b, x, y, k);
    return false;
  }

  /** One more diagonal, on which v is the progress: it is worse, or the best so far. */
  lemma NextForward(b: Box, f: seq<int>, c: int, d: int, fmax: int, best: int, x: int, y: int)
    requires Fits(b, f) && b.Dmin() <= d <= fmax <= b.Dmax() && Live(d, b.Fmid(), c) && c >= 0
    requires best >= 0 && BestForward(b, f, c, d + 1, fmax, best, x, y)
    ensures ForwardSnake(b, f, c, d) && ForwardProgress(b, f, d) > best ==>
              BestForward(b, f, c, d, fmax, ForwardProgress(b, f, d), At(b, f, d), At(b, f, d) - d)
    ensures !(ForwardSnake(b, f, c, d) && ForwardProgress(b, f, d) > best) ==>
              BestForward(b, f, c, d, fmax, best, x, y)
  {
    hide ForwardSnake, Live, ForwardProgress;
    SnakeHasProgress(b, f, c, d);
  }

  lemma SnakeHasProgress(b: Box, f: seq<int>, c: int, d: int)
    requires Fits(b, f) && b.Dmin() <= d <= b.Dmax() && c >= 0
    ensures ForwardSnake(b, f, c, d) ==> ForwardProgress(b, f, d) > 0
    ensures BackwardSnake(b, f, c, d) ==> BackwardProgress(b, f, d) > 0
  {
  }

  lemma NextBackward(b: Box, w: seq<int>, c: int, d: int, bmax: int, best: int, x: int, y: int)
    requires Fits(b, w) && b.Dmin() <= d <= bmax <= b.Dmax() && Live(d, b.Bmid(), c) && c >= 0
    requires best >= 0 && BestBackward(b, w, c, d + 1, bmax, best, x, y)
    ensures BackwardSnake(b, w, c, d) && BackwardProgress(b, w, d) > best ==>
              BestBackward(b, w, c, d, bmax, BackwardProgress(b, w, d), At(b, w, d), At(b, w, d) - d)
    ensures !(BackwardSnake(b, w, c, d) && BackwardProgress(b, w, d) > best) ==>
              BestBackward(b, w, c, d, bmax, best, x, y)
  {
    hide BackwardSnake, Live, BackwardProgress;
    SnakeHasProgress(b, w, c, d);
  }

  /** A diagonal of the other parity is not live, so nothing changes. */
  lemma SkipForward(b: Box, f: seq<int>, c: int, d: int, fmin: int, fmax: int, best: int, x: int, y: int)
    requires Fits(b, f) && b.Dmin() <= fmin <= d <= fmax <= b.Dmax() && Live(d, b.Fmid(), c) && Live(fmin, b.Fmid(), c)
    requires BestForward(b, f, c, d, fmax, best, x, y)
    ensures BestForward(b, f, c, Max(d - 1, fmin), fmax, best, x, y)
  {
    hide ForwardSnake, ForwardProgress;
  }

  lemma SkipBackward(b: Box, w: seq<int>, c: int, d: int, bmin: int, bmax: int, best: int, x: int, y: int)
    requires Fits(b, w) && b.Dmin() <= bmin <= d <= bmax <= b.Dmax() && Live(d, b.Bmid(), c) && Live(bmin, b.Bmid(), c)
    requires BestBackward(b, w, c, d, bmax, best, x, y)
    ensures BestBackward(b, w, c, Max(d - 1, bmin), bmax, best, x, y)
  {
    hide BackwardSnake, BackwardProgress;
  }

  /** The heuristic for long matches: the live forward reach behind a snake that has made the most progress. */
  method BigSnakeForward(b: Box, fd: array<int>, c: int, fmin: int, fmax: int) returns (best: int, xmid: int, ymid: int)
    requires c >= 0 && FwdFrontier(b, fd[..], fmin, fmax, c)
    ensures best >= 0 && BestForward(b, fd[..], c, fmin, fmax, best, xmid, ymid)
    ensures best > 0 ==> b.xoff < xmid < b.xlim && b.yoff < ymid < b.ylim
  {
    hide BestForward, EndsSnake, Live, FwdSound, FwdCover, Dist;
    WindowLive(b, b.Fmid(), fmin, fmax, c);
    NoneForward(b, fd[..], c, fmax);
    best, xmid, ymid := 0, 0, 0;
    var d := fmax;
    while d >= fmin
      invariant fmin - 2 <= d <= fmax && best >= 0 && Live(d, b.Fmid(), c)
      invariant BestForward(b, fd[..], c, Max(d + 1, fmin), fmax, best, xmid, ymid)
      invariant best > 0 ==> b.xoff < xmid < b.xlim && b.yoff < ymid < b.ylim
    {
      var dd := d - b.Fmid();
      var x := fd[Index(b, d)];
      var y := x - d;
      var v := (x - b.xoff) * 2 - dd;
      NextForward(b, fd[..], c, d, fmax, best, xmid, ymid);
      if v > 12 * (c + if dd < 0 then -dd else dd) {
        if v > best && b.xoff + SNAKE_LIMIT <= x < b.xlim && b.yoff + SNAKE_LIMIT <= y < b.ylim {
          var snake := EndsInSnake(b, x, y);
          if snake {
            best, xmid, ymid := v, x, y;
          }
        }
      }
      SkipForward(b, fd[..], c, d, fmin, fmax, best, xmid, ymid);
      StepLive(d, b.Fmid(), c);
      SameParityOrEqual(fmin, d, b.Fmid(), c);
      d := d - 2;
    }
  }

  lemma WindowLive(b: Box, mid: int, lo: int, hi: int, c: int)
    requires b.Valid() && Window(b, mid, lo, hi, c)
    ensures b.Dmin() <= lo <= hi <= b.Dmax() && Live(lo, mid, c) && Live(hi, mid, c)
  {
  }

  lemma NoneForward(b: Box, f: seq<int>, c: int, fmax: int)
    requires Fits(b, f) && b.Dmin() <= fmax <= b.Dmax()
    ensures BestForward(b, f, c, fmax + 1, fmax, 0, 0, 0)
  {
  }

  lemma NoneBackward(b: Box, w: seq<int>, c: int, bmax: int)
    requires Fits(b, w) && b.Dmin() <= bmax <= b.Dmax()
    ensures BestBackward(b, w, c, bmax + 1, bmax, 0, 0, 0)
  {
  }

  method BigSnakeBackward(b: Box, bd: array<int>, c: int, bmin: int, bmax: int)
    returns (best: int, xmid: int, ymid: int)
    requires c >= 0 && BwdFrontier(b, bd[..], bmin, bmax, c)
    ensures best >= 0 && BestBackward(b, bd[..], c, bmin, bmax, best, xmid, ymid)
    ensures best > 0 ==> b.xoff < xmid < b.xlim && b.yoff < ymid < b.ylim
  {
    hide BestBackward, BeginsSnake, Live, BwdSound, BwdCover, Dist;
    WindowLive(b, b.Bmid(), bmin, bmax, c);
    NoneBackward(b, bd[..], c, bmax);
    best, xmid, ymid := 0, 0, 0;
    var d := bmax;
    while d >= bmin
      invariant bmin - 2 <= d <= bmax && best >= 0 && Live(d, b.Bmid(), c)
      invariant BestBackward(b, bd[..], c, Max(d + 1, bmin), bmax, best, xmid, ymid)
      invariant best > 0 ==> b.xoff < xmid < b.xlim && b.yoff < ymid < b.ylim
    {
      var dd := d - b.Bmid();
      var x := bd[Index(b, d)];
      var y := x - d;
      var v := (b.xlim - x) * 2 + dd;
      NextBackward(b, bd[..], c, d, bmax, best, xmid, ymid);
      if v > 12 * (c + if dd < 0 then -dd else dd) {
        if v > best && b.xoff < x <= b.xlim - SNAKE_LIMIT && b.yoff < y <= b.ylim - SNAKE_LIMIT {
          var snake := BeginsWithSnake(b, x, y);
          if snake {
            best, xmid, ymid := v, x, y;
          }
        }
      }
      SkipBackward(b, bd[..], c, d, bmin, bmax, best, xmid, ymid);
      StepLive(d, b.Bmid(), c);
      SameParityOrEqual(bmin, d, b.Bmid(), c);
      d := d - 2;
    }
  }

  /** A live diagonal other than the one through the start exists as soon as the box needs many changes. */
  lemma SideDiagonal(b: Box, mid: int, lo: int, hi: int, c: int)
    requires b.Valid() && c >= 1 && Window(b, mid, lo, hi, c) && b.Dmin() < mid < b.Dmax()
    requires b.Dmax() - b.Dmin() > 2 * c
    ensures lo != mid || hi != mid
  {
  }

  /** A forward reach, pulled back along its diagonal into the box. */
  method PullBackForward(b: Box, reach: int, ghost c: int, d: int) returns (x: int, y: int)
    requires b.Valid() && b.Dmin() <= d <= b.Dmax() && b.FwdReach(c, d, reach)
    ensures x - y == d && b.In(x, y) && b.Fwd(x, y) <= c && x == Min(Min(reach, b.xlim), b.ylim + d)
    ensures d != b.Fmid() ==> x + y > b.xoff + b.yoff
  {
    ghost var px := b.FwdPullBack(c, d, reach);
    x := Min(reach, b.xlim);
    y := x - d;
    if b.ylim < y {
      x, y := b.ylim + d, b.ylim;
    }
  }

  /**
    No point on the diagonals from `from` on that c changes reach lies further; of two as far the one with
    the larger x counts.
   */
  ghost predicate Furthest(b: Box, c: int, from: int, x: int, xy: int)
    requires b.Valid()
  {
    forall u, v {:trigger b.Fwd(u, v)} ::
      b.In(u, v) && b.Fwd(u, v) <= c && Live(u - v, b.Fmid(), c) && from <= u - v ==>
        u + v <= xy && (u + v == xy ==> u <= x)
  }

  ghost predicate Nearest(b: Box, c: int, from: int, x: int, xy: int)
    requires b.Valid()
  {
    forall u, v {:trigger b.Bwd(u, v)} ::
      b.In(u, v) && b.Bwd(u, v) <= c && Live(u - v, b.Bmid(), c) && from <= u - v ==>
        xy <= u + v && (u + v == xy ==> u <= x)
  }

  lemma FurthestNext(b: Box, f: seq<int>, lo: int, hi: int, c: int, d: int, x: int, best: int, xy: int)
    requires FwdFrontier(b, f, lo, hi, c) && lo <= d <= hi && Live(d, b.Fmid(), c)
    requires x == Min(Min(At(b, f, d), b.xlim), b.ylim + d)
    requires Furthest(b, c, d + 1, best, xy) && (xy == -1 || 2 * best - xy > d)
    ensures Furthest(b, c, d - 1, if xy < 2 * x - d then x else best, if xy < 2 * x - d then 2 * x - d else xy)
  {
    hide Dist, FwdSound;
  }

  lemma NearestNext(b: Box, w: seq<int>, lo: int, hi: int, c: int, d: int, x: int, best: int, xy: int)
    requires BwdFrontier(b, w, lo, hi, c) && lo <= d <= hi && Live(d, b.Bmid(), c)
    requires x == Max(Max(At(b, w, d), b.xoff), b.yoff + d)
    requires Nearest(b, c, d + 1, best, xy) && (xy == GNULINEREF_MAX || 2 * best - xy > d)
    requires |b.xs| + |b.ys| < GNULINEREF_MAX
    ensures Nearest(b, c, d - 1, if 2 * x - d < xy then x else best, if 2 * x - d < xy then 2 * x - d else xy)
  {
    hide Dist, BwdSound;
  }

  /** Giving up: of the points that c changes reach, with c's parity, the one that maximizes x + y. */
  method ForwardBest(b: Box, fd: array<int>, ghost c: int, fmin: int, fmax: int) returns (xbest: int, xybest: int)
    requires c >= 1 && FwdFrontier(b, fd[..], fmin, fmax, c) && b.Total() > 2 * c
    ensures Splits(b, Partition(xbest, xybest - xbest, true, false))
    ensures b.Fwd(xbest, xybest - xbest) <= c && Live(xbest - (xybest - xbest), b.Fmid(), c)
    ensures Furthest(b, c, b.Dmin(), xbest, xybest)
  {
    hide Dist, Live, Box.FwdReach, FwdCover, Furthest, FurthestSoFar, Splits;
    FurthestNone(b, fd[..], fmin, fmax, c);
    WindowLive(b, b.Fmid(), fmin, fmax, c);
    xybest, xbest := -1, 0;
    var d := fmax;
    while d >= fmin
      invariant fmin - 2 <= d <= fmax && Live(d, b.Fmid(), c)
      invariant FurthestSoFar(b, c, d, fmin, fmax, xbest, xybest)
    {
      var x, y := PullBackForward(b, fd[Index(b, d)], c, d);
      FurthestOn(b, fd[..], fmin, fmax, c, d, x, xbest, xybest);
      if xybest < x + y {
        xybest, xbest := x + y, x;
      }
      StepLive(d, b.Fmid(), c);
      SameParityOrEqual(fmin, d, b.Fmid(), c);
      d := d - 2;
    }
    FurthestDone(b, fd[..], fmin, fmax, c, d, xbest, xybest);
  }

  /** The best point on the diagonals above d, if there is one yet. */
  ghost predicate FurthestSoFar(b: Box, c: int, d: int, fmin: int, fmax: int, x: int, xy: int)
    requires b.Valid()
  {
    && (d == fmax ==> xy == -1)
    && (d < fmax ==> b.In(x, xy - x) && b.Fwd(x, xy - x) <= c && 2 * x - xy > d && Live(2 * x - xy, b.Fmid(), c))
    && (d < fmax && fmax != b.Fmid() ==> xy > b.xoff + b.yoff)
    && (d < fmin && fmin != b.Fmid() ==> xy > b.xoff + b.yoff)
    && Furthest(b, c, d + 1, x, xy)
  }

  lemma FurthestNone(b: Box, f: seq<int>, fmin: int, fmax: int, c: int)
    requires FwdFrontier(b, f, fmin, fmax, c)
    ensures FurthestSoFar(b, c, fmax, fmin, fmax, 0, -1)
  {
    hide Dist, FwdSound, FwdCover, Furthest, Live;
    FurthestStart(b, f, fmin, fmax, c);
    WindowLive(b, b.Fmid(), fmin, fmax, c);
  }

  lemma FurthestOn(b: Box, f: seq<int>, fmin: int, fmax: int, c: int, d: int, x: int, best: int, xy: int)
    requires FwdFrontier(b, f, fmin, fmax, c) && fmin <= d <= fmax && Live(d, b.Fmid(), c)
    requires x == Min(Min(At(b, f, d), b.xlim), b.ylim + d) && b.In(x, x - d) && b.Fwd(x, x - d) <= c
    requires d != b.Fmid() ==> 2 * x - d > b.xoff + b.yoff
    requires FurthestSoFar(b, c, d, fmin, fmax, best, xy)
    ensures var further := xy < 2 * x - d;
            FurthestSoFar(b, c, d - 2, fmin, fmax, if further then x else best, if further then 2 * x - d else xy)
  {
    hide Dist, FwdSound, FwdCover, Furthest, Live;
    FurthestNext(b, f, fmin, fmax, c, d, x, best, xy);
    SameParityOrEqual(fmin, d, b.Fmid(), c);
  }

  lemma FurthestDone(b: Box, f: seq<int>, fmin: int, fmax: int, c: int, d: int, x: int, xy: int)
    requires FwdFrontier(b, f, fmin, fmax, c) && c >= 1 && b.Total() > 2 * c && d < fmin
    requires FurthestSoFar(b, c, d, fmin, fmax, x, xy)
    ensures Splits(b, Partition(x, xy - x, true, false)) && Furthest(b, c, b.Dmin(), x, xy)
    ensures b.Fwd(x, xy - x) <= c && Live(x - (xy - x), b.Fmid(), c)
  {
    hide Dist, FwdSound, FwdCover, Furthest, Live;
    DistShape(b.xs, b.ys, b.xoff, b.xlim, b.yoff, b.ylim);
    SideDiagonal(b, b.Fmid(), fmin, fmax, c);
    WindowLive(b, b.Fmid(), fmin, fmax, c);
    FurthestStart(b, f, fmin, fmax, c);
  }

  lemma FurthestStart(b: Box, f: seq<int>, lo: int, hi: int, c: int)
    requires FwdFrontier(b, f, lo, hi, c)
    ensures Furthest(b, c, hi + 1, 0, -1)
    ensures forall x, xy, d :: d <= lo && Furthest(b, c, d, x, xy) ==> Furthest(b, c, b.Dmin(), x, xy)
  {
    hide Dist, FwdSound;
  }

  lemma NearestStart(b: Box, w: seq<int>, lo: int, hi: int, c: int)
    requires BwdFrontier(b, w, lo, hi, c)
    ensures Nearest(b, c, hi + 1, 0, GNULINEREF_MAX)
    ensures forall x, xy, d :: d <= lo && Nearest(b, c, d, x, xy) ==> Nearest(b, c, b.Dmin(), x, xy)
  {
    hide Dist, BwdSound;
  }

  lemma SameParityOrEqual(d: int, k: int, mid: int, c: int)
    requires Live(d, mid, c) && Live(k, mid, c) && d <= k
    ensures d == k || d + 2 <= k
  {
  }

  /** A backward reach, pulled back along its diagonal into the box. */
  method PullBackBackward(b: Box, reach: int, ghost c: int, d: int) returns (x: int, y: int)
    requires b.Valid() && b.Dmin() <= d <= b.Dmax() && b.BwdReach(c, d, reach)
    ensures x - y == d && b.In(x, y) && b.Bwd(x, y) <= c && x == Max(Max(reach, b.xoff), b.yoff + d)
    ensures d != b.Bmid() ==> x + y < b.xlim + b.ylim
  {
    ghost var px := b.BwdPullBack(c, d, reach);
    x := Max(b.xoff, reach);
    y := x - d;
    if y < b.yoff {
      x, y := b.yoff + d, b.yoff;
    }
  }

  /** Giving up: of the points from which c changes lead to the end, with c's parity, the one that minimizes x + y. */
  method BackwardBest(b: Box, bd: array<int>, ghost c: int, bmin: int, bmax: int) returns (xbest: int, xybest: int)
    requires |b.xs| + |b.ys| < GNULINEREF_MAX
    requires c >= 1 && BwdFrontier(b, bd[..], bmin, bmax, c) && b.Total() > 2 * c
    ensures Splits(b, Partition(xbest, xybest - xbest, false, true))
    ensures b.Bwd(xbest, xybest - xbest) <= c && Live(xbest - (xybest - xbest), b.Bmid(), c)
    ensures Nearest(b, c, b.Dmin(), xbest, xybest)
  {
    hide Dist, Live, Box.BwdReach, BwdCover, Nearest, NearestSoFar, Splits;
    NearestNone(b, bd[..], bmin, bmax, c);
    WindowLive(b, b.Bmid(), bmin, bmax, c);
    xybest, xbest := GNULINEREF_MAX, 0;
    var d := bmax;
    while d >= bmin
      invariant bmin - 2 <= d <= bmax && Live(d, b.Bmid(), c)
      invariant NearestSoFar(b, c, d, bmin, bmax, xbest, xybest)
    {
      var x, y := PullBackBackward(b, bd[Index(b, d)], c, d);
      NearestOn(b, bd[..], bmin, bmax, c, d, x, xbest, xybest);
      if x + y < xybest {
        xybest, xbest := x + y, x;
      }
      StepLive(d, b.Bmid(), c);
      SameParityOrEqual(bmin, d, b.Bmid(), c);
      d := d - 2;
    }
    NearestDone(b, bd[..], bmin, bmax, c, d, xbest, xybest);
  }

  ghost predicate NearestSoFar(b: Box, c: int, d: int, bmin: int, bmax: int, x: int, xy: int)
    requires b.Valid()
  {
    && (d == bmax ==> xy == GNULINEREF_MAX)
    && (d < bmax ==> b.In(x, xy - x) && b.Bwd(x, xy - x) <= c && 2 * x - xy > d && Live(2 * x - xy, b.Bmid(), c))
    && (d < bmax && bmax != b.Bmid() ==> xy < b.xlim + b.ylim)
    && (d < bmin && bmin != b.Bmid() ==> xy < b.xlim + b.ylim)
    && Nearest(b, c, d + 1, x, xy)
  }

  lemma NearestNone(b: Box, w: seq<int>, bmin: int, bmax: int, c: int)
    requires BwdFrontier(b, w, bmin, bmax, c)
    ensures NearestSoFar(b, c, bmax, bmin, bmax, 0, GNULINEREF_MAX)
  {
    hide Dist, BwdSound, BwdCover, Nearest, Live;
    NearestStart(b, w, bmin, bmax, c);
    WindowLive(b, b.Bmid(), bmin, bmax, c);
  }

  lemma NearestOn(b: Box, w: seq<int>, bmin: int, bmax: int, c: int, d: int, x: int, best: int, xy: int)
    requires BwdFrontier(b, w, bmin, bmax, c) && bmin <= d <= bmax && Live(d, b.Bmid(), c)
    requires |b.xs| + |b.ys| < GNULINEREF_MAX
    requires x == Max(Max(At(b, w, d), b.xoff), b.yoff + d) && b.In(x, x - d) && b.Bwd(x, x - d) <= c
    requires d != b.Bmid() ==> 2 * x - d < b.xlim + b.ylim
    requires NearestSoFar(b, c, d, bmin, bmax, best, xy)
    ensures var nearer := 2 * x - d < xy;
            NearestSoFar(b, c, d - 2, bmin, bmax, if nearer then x else best, if nearer then 2 * x - d else xy)
  {
    hide Dist, BwdSound, BwdCover, Nearest, Live;
    NearestNext(b, w, bmin, bmax, c, d, x, best, xy);
    SameParityOrEqual(bmin, d, b.Bmid(), c);
  }

  lemma NearestDone(b: Box, w: seq<int>, bmin: int, bmax: int, c: int, d: int, x: int, xy: int)
    requires BwdFrontier(b, w, bmin, bmax, c) && c >= 1 && b.Total() > 2 * c && d < bmin
    requires NearestSoFar(b, c, d, bmin, bmax, x, xy)
    ensures Splits(b, Partition(x, xy - x, false, true)) && Nearest(b, c, b.Dmin(), x, xy)
    ensures b.Bwd(x, xy - x) <= c && Live(x - (xy - x), b.Bmid(), c)
  {
    hide Dist, BwdSound, BwdCover, Nearest, Live;
    DistShape(b.xs, b.ys, b.xoff, b.xlim, b.yoff, b.ylim);
    SideDiagonal(b, b.Bmid(), bmin, bmax, c);
    WindowLive(b, b.Bmid(), bmin, bmax, c);
    NearestStart(b, w, bmin, bmax, c);
  }

  // ----- what the search may return

  /** The point lies on a cheapest way, and both halves are to be compared minimally. */
  ghost predicate ExactSplit(b: Box, cost: int, part: Partition)
    requires b.Valid()
  {
    && b.In(part.xmid, part.ymid) && part.loMinimal && part.hiMinimal
    && cost == b.Total() == b.Fwd(part.xmid, part.ymid) + b.Bwd(part.xmid, part.ymid)
  }

  /** After c rounds without a meeting: the forward reach with the most progress behind a long snake. */
  ghost predicate SnakeBehind(b: Box, f: seq<int>, c: int, part: Partition) {
    exists fmin, fmax, best :: FwdFrontier(b, f, fmin, fmax, c) && best > 0
                               && BestForward(b, f, c, fmin, fmax, best, part.xmid, part.ymid)
  }

  ghost predicate NoSnakeBehind(b: Box, f: seq<int>, c: int) {
    exists fmin, fmax, x, y :: FwdFrontier(b, f, fmin, fmax, c) && BestForward(b, f, c, fmin, fmax, 0, x, y)
  }

  ghost predicate SnakeAhead(b: Box, w: seq<int>, c: int, part: Partition) {
    exists bmin, bmax, best :: BwdFrontier(b, w, bmin, bmax, c) && best > 0
                               && BestBackward(b, w, c, bmin, bmax, best, part.xmid, part.ymid)
  }

  /** A split at a long snake, forward snakes first; the half that was searched is compared minimally. */
  ghost predicate SnakeSplit(b: Box, f: seq<int>, w: seq<int>, c: int, part: Partition) {
    && c > 200 && part.hiMinimal == !part.loMinimal
    && if part.loMinimal then SnakeBehind(b, f, c, part) else NoSnakeBehind(b, f, c) && SnakeAhead(b, w, c, part)
  }

  /** The point furthest from the start that c changes reach. */
  ghost predicate FurthestPoint(b: Box, c: int, x: int, y: int)
    requires b.Valid()
  {
    b.In(x, y) && b.Fwd(x, y) <= c && Live(x - y, b.Fmid(), c) && Furthest(b, c, b.Dmin(), x, x + y)
  }

  /** The point nearest to the start from which c changes lead to the end. */
  ghost predicate NearestPoint(b: Box, c: int, x: int, y: int)
    requires b.Valid()
  {
    b.In(x, y) && b.Bwd(x, y) <= c && Live(x - y, b.Bmid(), c) && Nearest(b, c, b.Dmin(), x, x + y)
  }

  /** The better of the two; the half that was searched is compared minimally. */
  ghost predicate GivenUp(b: Box, c: int, part: Partition)
    requires b.Valid()
  {
    && part.hiMinimal == !part.loMinimal
    && exists fx, fy, nx, ny :: FurthestPoint(b, c, fx, fy) && NearestPoint(b, c, nx, ny)
                                && Better(b, fx, fy, nx, ny, part)
  }

  predicate Better(b: Box, fx: int, fy: int, nx: int, ny: int, part: Partition) {
    && part.loMinimal == (b.xlim + b.ylim - (nx + ny) < fx + fy - (b.xoff + b.yoff))
    && (part.xmid, part.ymid) == if part.loMinimal then (fx, fy) else (nx, ny)
  }

  /** The searches are short enough for both heuristics to stay out of play. */
  predicate Prompt(cost: int, findMinimal: bool, speedLargeFiles: bool, tooExpensive: int) {
    findMinimal || cost <= 402 || (!speedLargeFiles && cost <= 2 * tooExpensive)
  }

  /** The entries of both searches after c rounds. */
  ghost predicate InRound(b: Box, f: seq<int>, w: seq<int>, fmin: int, fmax: int, bmin: int, bmax: int, c: int) {
    FwdRound(b, f, fmin, fmax, c) && BwdRound(b, w, bmin, bmax, c)
  }

  /** Some step of the last round followed a long snake. */
  ghost predicate SnakeSeen(b: Box, f: seq<int>, w: seq<int>, fmin: int, fmax: int, bmin: int, bmax: int, c: int) {
    ForwardSearch.LongSnake(b, f, fmin, fmax, c) || BackwardSearch.LongSnake(b, w, bmin, bmax, c)
  }

  ghost predicate SnakeFollowed(b: Box, f: seq<int>, w: seq<int>, c: int) {
    exists fmin, fmax, bmin, bmax :: InRound(b, f, w, fmin, fmax, bmin, bmax, c)
                                     && SnakeSeen(b, f, w, fmin, fmax, bmin, bmax, c)
  }

  /** No long snake was followed, or no reach has made enough progress behind one. */
  ghost predicate Quiet(b: Box, f: seq<int>, w: seq<int>, c: int) {
    exists fmin, fmax, bmin, bmax :: InRound(b, f, w, fmin, fmax, bmin, bmax, c)
                                     && (SnakeSeen(b, f, w, fmin, fmax, bmin, bmax, c) ==>
                                           NoCandidate(b, f, w, fmin, fmax, bmin, bmax, c))
  }

  ghost predicate NoCandidate(b: Box, f: seq<int>, w: seq<int>, fmin: int, fmax: int, bmin: int, bmax: int, c: int)
    requires InRound(b, f, w, fmin, fmax, bmin, bmax, c)
  {
    && (exists x, y :: BestForward(b, f, c, fmin, fmax, 0, x, y))
    && (exists x, y :: BestBackward(b, w, c, bmin, bmax, 0, x, y))
  }

  ghost predicate QuietRound(b: Box, c: int) { exists f, w :: Quiet(b, f, w, c) }

  /** The heuristic for large files had no reason to stop the search before its last round. */
  ghost predicate Searched(b: Box, cost: int, findMinimal: bool, speedLargeFiles: bool) {
    !findMinimal && speedLargeFiles ==> forall k :: 200 < k < (cost + 1) / 2 ==> QuietRound(b, k)
  }

  /** A heuristic split, after c rounds in which the searches have not met. */
  ghost predicate HeuristicSplit(b: Box, f: seq<int>, w: seq<int>, c: int, part: Partition, speedLargeFiles: bool,
                                 tooExpensive: int)
    requires b.Valid()
  {
    && b.Total() > 2 * c && c <= tooExpensive
    && ((speedLargeFiles && SnakeFollowed(b, f, w, c) && SnakeSplit(b, f, w, c, part))
        || (c == tooExpensive && (speedLargeFiles ==> Quiet(b, f, w, c)) && GivenUp(b, c, part)))
  }

  /** What is tried after c rounds without a meeting, unless the search has to be minimal. */
  method TryHeuristics(b: Box, fd: array<int>, bd: array<int>, c: int, fmin: int, fmax: int, bmin: int, bmax: int,
                       bigSnake: bool, speedLargeFiles: bool, tooExpensive: int)
    returns (found: bool, part: Partition)
    requires |b.xs| + |b.ys| < GNULINEREF_MAX && b.Valid() && 1 <= c <= tooExpensive && tooExpensive >= 256
    requires InRound(b, fd[..], bd[..], fmin, fmax, bmin, bmax, c) && b.Total() > 2 * c
    requires bigSnake == SnakeSeen(b, fd[..], bd[..], fmin, fmax, bmin, bmax, c)
    ensures !found && 200 < c && speedLargeFiles ==> Quiet(b, fd[..], bd[..], c)
    ensures (c == tooExpensive ==> found) && (found ==> c > 200)
    ensures found ==> Splits(b, part) && HeuristicSplit(b, fd[..], bd[..], c, part, speedLargeFiles, tooExpensive)
    ensures found ==> !Prompt(b.Total(), false, speedLargeFiles, tooExpensive)
  {
    hide Dist, Live, FwdFrontier, BwdFrontier, BestForward, BestBackward, Furthest, Nearest, HeuristicSplit, SnakeSeen,
         Quiet, InRound;
    RoundFrontiers(b, fd[..], bd[..], fmin, fmax, bmin, bmax, c);
    found, part := false, Partition(b.xoff, b.yoff, false, false);
    if 200 < c && bigSnake && speedLargeFiles {
      var best, xmid, ymid := BigSnakeForward(b, fd, c, fmin, fmax);
      if best > 0 {
        part := Partition(xmid, ymid, true, false);
        ForwardSnakeSplits(b, fd[..], bd[..], c, fmin, fmax, bmin, bmax, best, part, tooExpensive);
        return true, part;
      }
      ghost var x0, y0 := xmid, ymid;
      best, xmid, ymid := BigSnakeBackward(b, bd, c, bmin, bmax);
      if best > 0 {
        part := Partition(xmid, ymid, false, true);
        BackwardSnakeSplits(b, fd[..], bd[..], c, fmin, fmax, bmin, bmax, best, part, x0, y0, tooExpensive);
        return true, part;
      }
      BothQuiet(b, fd[..], bd[..], fmin, fmax, bmin, bmax, c, x0, y0, xmid, ymid);
    } else if !bigSnake {
      NoneSeen(b, fd[..], bd[..], fmin, fmax, bmin, bmax, c);
    }
    if c >= tooExpensive {
      var fxbest, fxybest := ForwardBest(b, fd, c, fmin, fmax);
      var bxbest, bxybest := BackwardBest(b, bd, c, bmin, bmax);
      if b.xlim + b.ylim - bxybest < fxybest - (b.xoff + b.yoff) {
        part := Partition(fxbest, fxybest - fxbest, true, false);
      } else {
        part := Partition(bxbest, bxybest - bxbest, false, true);
      }
      GivingUpSplits(b, fd[..], bd[..], c, fxbest, fxybest, bxbest, bxybest, part, speedLargeFiles);
      found := true;
    }
  }

  /**
    The search itself.  As long as the box costs no more than 402, or than twice the limit without the
    heuristic for large files, and always with `findMinimal`, the returned cost is the exact distance of the
    box and the midpoint lies on a cheapest way.  Otherwise a heuristic may choose the midpoint, after no more
    rounds than the limit.  In every case the midpoint splits the box.
   */
  method Diag(b: Box, fd: array<int>, bd: array<int>, findMinimal: bool, speedLargeFiles: bool, tooExpensive: int)
    returns (cost: int, part: Partition)
    requires Fits(b, fd[..]) && Fits(b, bd[..]) && fd != bd && |b.xs| + |b.ys| < GNULINEREF_MAX
    requires b.Trimmed() && tooExpensive >= 256
    modifies fd, bd
    ensures Fits(b, fd[..]) && Fits(b, bd[..])
    ensures Splits(b, part)
    ensures cost != 1 && (!findMinimal ==> cost <= 2 * tooExpensive)
    ensures Searched(b, cost, findMinimal, speedLargeFiles)
    ensures Prompt(b.Total(), findMinimal, speedLargeFiles, tooExpensive) ==> ExactSplit(b, cost, part)
    ensures findMinimal ==> ExactSplit(b, cost, part)
    ensures ExactSplit(b, cost, part)
            || (!findMinimal && cost % 2 == 1
                && HeuristicSplit(b, fd[..], bd[..], (cost + 1) / 2, part, speedLargeFiles, tooExpensive))
  {
    hide Dist, Live, Box.FwdReach, Box.BwdReach, FwdFrontier, BwdFrontier, Apart, HeuristicSplit, ExactSplit, Prompt,
         FwdRound, BwdRound, QuietRound, Quiet, ForwardSearch.LongSnake, BackwardSearch.LongSnake;
    var fmin, fmax, bmin, bmax := b.Fmid(), b.Fmid(), b.Bmid(), b.Bmid();
    var odd := (b.Fmid() - b.Bmid()) % 2 != 0;
    fd[Index(b, b.Fmid())] := b.xoff;
    bd[Index(b, b.Bmid())] := b.xlim;
    StartFwd(b, fd[..]);
    StartBwd(b, bd[..]);
    TrimmedCostsTwo(b.xs, b.ys, b.xoff, b.xlim, b.yoff, b.ylim);
    DistShape(b.xs, b.ys, b.xoff, b.xlim, b.yoff, b.ylim);
    var c := 1;
    while true
      invariant c >= 1 && (!findMinimal ==> c <= tooExpensive)
      invariant FwdFrontier(b, fd[..], fmin, fmax, c - 1) && BwdFrontier(b, bd[..], bmin, bmax, c - 1)
      invariant b.Total() > 2 * (c - 1)
      invariant !findMinimal && speedLargeFiles ==> forall k :: 200 < k < c ==> QuietRound(b, k)
      decreases b.Total() - c
    {
      var bigF, bigB, met, d, x;
      ghost var u;
      fmin, fmax, bigF, met, d, x, u := ForwardPass(b, fd, bd, c, odd, fmin, fmax, bmin, bmax);
      if met {
        MeetOdd(b, c, d, x, u);
        return 2 * c - 1, Partition(x, x - d, true, true);
      }
      if odd {
        ApartMeansMore(b, fd[..], bd[..], fmin, fmax, bmin, bmax, c, c - 1);
      }
      TotalParity(b, odd, c);
      bmin, bmax, bigB, met, d, x, u := BackwardPass(b, fd, bd, c, odd, fmin, fmax, bmin, bmax);
      if met {
        MeetEven(b, c, d, x, u);
        return 2 * c, Partition(x, x - d, true, true);
      }
      if !odd {
        ApartMeansMore(b, fd[..], bd[..], fmin, fmax, bmin, bmax, c, c);
      }
      assert b.Total() > 2 * c;
      if !findMinimal {
        var found;
        found, part := TryHeuristics(b, fd, bd, c, fmin, fmax, bmin, bmax, bigF || bigB, speedLargeFiles, tooExpensive);
        if found {
          return 2 * c - 1, part;
        }
        QuietHere(b, fd[..], bd[..], c);
      }
      c := c + 1;
    }
  }

  lemma QuietHere(b: Box, f: seq<int>, w: seq<int>, c: int)
    ensures Quiet(b, f, w, c) ==> QuietRound(b, c)
  {
    hide Quiet;
  }

  lemma RoundFrontiers(b: Box, f: seq<int>, w: seq<int>, fmin: int, fmax: int, bmin: int, bmax: int, c: int)
    requires InRound(b, f, w, fmin, fmax, bmin, bmax, c)
    ensures FwdFrontier(b, f, fmin, fmax, c) && BwdFrontier(b, w, bmin, bmax, c)
  {
    hide FwdFrontier, BwdFrontier;
  }

  lemma BothQuiet(b: Box, f: seq<int>, w: seq<int>, fmin: int, fmax: int, bmin: int, bmax: int, c: int, x0: int,
                  y0: int, x1: int, y1: int)
    requires InRound(b, f, w, fmin, fmax, bmin, bmax, c) && FwdFrontier(b, f, fmin, fmax, c)
    requires BwdFrontier(b, w, bmin, bmax, c)
    requires BestForward(b, f, c, fmin, fmax, 0, x0, y0) && BestBackward(b, w, c, bmin, bmax, 0, x1, y1)
    ensures Quiet(b, f, w, c)
  {
    hide InRound, BestForward, BestBackward, SnakeSeen;
    assert NoCandidate(b, f, w, fmin, fmax, bmin, bmax, c);
  }

  lemma NoneSeen(b: Box, f: seq<int>, w: seq<int>, fmin: int, fmax: int, bmin: int, bmax: int, c: int)
    requires InRound(b, f, w, fmin, fmax, bmin, bmax, c) && !SnakeSeen(b, f, w, fmin, fmax, bmin, bmax, c)
    ensures Quiet(b, f, w, c)
  {
    hide InRound, NoCandidate, SnakeSeen;
  }

  lemma ForwardSnakeSplits(b: Box, f: seq<int>, w: seq<int>, c: int, fmin: int, fmax: int, bmin: int, bmax: int,
                           best: int, part: Partition, tooExpensive: int)
    requires InRound(b, f, w, fmin, fmax, bmin, bmax, c) && SnakeSeen(b, f, w, fmin, fmax, bmin, bmax, c)
    requires b.Valid() && FwdFrontier(b, f, fmin, fmax, c) && best > 0 && 200 < c <= tooExpensive && b.Total() > 2 * c
    requires BestForward(b, f, c, fmin, fmax, best, part.xmid, part.ymid) && part.loMinimal && !part.hiMinimal
    requires tooExpensive >= 256
    ensures HeuristicSplit(b, f, w, c, part, true, tooExpensive)
    ensures !Prompt(b.Total(), false, true, tooExpensive)
  {
    hide Dist, FwdFrontier, BestForward, GivenUp, InRound, SnakeSeen, Quiet;
    assert SnakeFollowed(b, f, w, c);
  }

  lemma BackwardSnakeSplits(b: Box, f: seq<int>, w: seq<int>, c: int, fmin: int, fmax: int, bmin: int, bmax: int,
                            best: int, part: Partition, x0: int, y0: int, tooExpensive: int)
    requires InRound(b, f, w, fmin, fmax, bmin, bmax, c) && SnakeSeen(b, f, w, fmin, fmax, bmin, bmax, c)
    requires b.Valid() && FwdFrontier(b, f, fmin, fmax, c) && BestForward(b, f, c, fmin, fmax, 0, x0, y0)
    requires BwdFrontier(b, w, bmin, bmax, c) && best > 0 && 200 < c <= tooExpensive && b.Total() > 2 * c
    requires BestBackward(b, w, c, bmin, bmax, best, part.xmid, part.ymid) && !part.loMinimal && part.hiMinimal
    requires tooExpensive >= 256
    ensures HeuristicSplit(b, f, w, c, part, true, tooExpensive)
    ensures !Prompt(b.Total(), false, true, tooExpensive)
  {
    hide Dist, FwdFrontier, BwdFrontier, BestForward, BestBackward, GivenUp, InRound, SnakeSeen, Quiet;
    assert SnakeFollowed(b, f, w, c);
  }

  lemma GivingUpSplits(b: Box, f: seq<int>, w: seq<int>, c: int, fx: int, fxy: int, bx: int, bxy: int, part: Partition,
                       speedLargeFiles: bool)
    requires b.Valid() && b.Total() > 2 * c && c >= 256 && (speedLargeFiles ==> Quiet(b, f, w, c))
    requires FurthestPoint(b, c, fx, fxy - fx) && NearestPoint(b, c, bx, bxy - bx)
    requires Better(b, fx, fxy - fx, bx, bxy - bx, part) && part.hiMinimal == !part.loMinimal
    ensures HeuristicSplit(b, f, w, c, part, speedLargeFiles, c)
    ensures !Prompt(b.Total(), false, speedLargeFiles, c)
  {
    hide Dist, FurthestPoint, NearestPoint, Better, SnakeSplit, Quiet, SnakeFollowed;
  }

  lemma MeetEven(b: Box, c: int, d: int, x: int, u: int)
    requires b.Valid() && c >= 1 && b.Total() > 2 * c - 1
    requires b.BwdReach(c, d, x) && x <= u && b.FwdReach(c, d, u)
    ensures b.In(x, x - d) && !b.Corner(x, x - d)
    ensures ExactSplit(b, 2 * c, Partition(x, x - d, true, true))
  {
    b.Meet(c, c, d, u, x);
  }

  /** The cost of the box has the parity of the distance between the two start diagonals. */
  lemma TotalParity(b: Box, odd: bool, n: int)
    requires b.Valid() && odd == ((b.Fmid() - b.Bmid()) % 2 != 0)
    ensures odd ==> b.Total() != 2 * n
    ensures !odd ==> b.Total() != 2 * n - 1
  {
    DistShape(b.xs, b.ys, b.xoff, b.xlim, b.yoff, b.ylim);
  }

  lemma MeetOdd(b: Box, c: int, d: int, x: int, u: int)
    requires b.Valid() && c >= 1 && b.Total() >= 2 && b.Total() > 2 * (c - 1)
    requires b.FwdReach(c, d, x) && u <= x && b.BwdReach(c - 1, d, u)
    ensures b.In(x, x - d) && !b.Corner(x, x - d)
    ensures ExactSplit(b, 2 * c - 1, Partition(x, x - d, true, true))
  {
    b.Meet(c, c - 1, d, x, u);
    DistShape(b.xs, b.ys, b.xlim, b.xlim, b.ylim, b.ylim);
  }
}
