/**
  The edit grid that one call of the middle-snake search walks over, and what the two searches
  may conclude when they meet.

  A point (x, y) of the grid lies on diagonal x - y.  The forward search stores the furthest x it
  has reached on a diagonal, the backward search the nearest.  Both may run past the border of the
  box; `FwdBound` and `BwdBound` account for the overrun.
 */
module EditGrid {
  import opened EditDistance

  datatype Box = Box(xs: seq<int>, ys: seq<int>, xoff: int, xlim: int, yoff: int, ylim: int) {

    ghost predicate Valid() {
      0 <= xoff < xlim <= |xs| && 0 <= yoff < ylim <= |ys|
    }

    /** What the search demands of its caller: the first lines differ and so do the last. */
    ghost predicate Trimmed()
      requires Valid()
    {
      xs[xoff] != ys[yoff] && xs[xlim - 1] != ys[ylim - 1]
    }

    predicate In(x: int, y: int) { xoff <= x <= xlim && yoff <= y <= ylim }

    predicate Corner(x: int, y: int) { (x == xoff && y == yoff) || (x == xlim && y == ylim) }

    function Dmin(): int { xoff - ylim }
    function Dmax(): int { xlim - yoff }
    function Fmid(): int { xoff - yoff }
    function Bmid(): int { xlim - ylim }

    ghost function Total(): int
      requires Valid()
    {
      Dist(xs, ys, xoff, xlim, yoff, ylim)
    }

    /** Cost from the upper left corner. */
    ghost function Fwd(x: int, y: int): int
      requires Valid() && In(x, y)
    {
      Dist(xs, ys, xoff, x, yoff, y)
    }

    /** Cost to the lower right corner. */
    ghost function Bwd(x: int, y: int): int
      requires Valid() && In(x, y)
    {
      Dist(xs, ys, x, xlim, y, ylim)
    }

    /** Cost of a forward reach that may lie beyond the right or lower border. */
    ghost function FwdBound(x: int, y: int): int
      requires Valid() && xoff <= x && yoff <= y
    {
      Fwd(Min(x, xlim), Min(y, ylim)) + (x - Min(x, xlim)) + (y - Min(y, ylim))
    }

    /** Cost of a backward reach that may lie beyond the left or upper border. */
    ghost function BwdBound(x: int, y: int): int
      requires Valid() && x <= xlim && y <= ylim
    {
      Bwd(Max(x, xoff), Max(y, yoff)) + (Max(x, xoff) - x) + (Max(y, yoff) - y)
    }

    ghost predicate FwdReach(c: int, d: int, x: int)
      requires Valid()
    {
      xoff <= x && yoff <= x - d && FwdBound(x, x - d) <= c
    }

    ghost predicate BwdReach(c: int, d: int, x: int)
      requires Valid()
    {
      x <= xlim && x - d <= ylim && BwdBound(x, x - d) <= c
    }

    ghost predicate Match(x: int, y: int)
      requires Valid()
    {
      xoff <= x < xlim && yoff <= y < ylim && xs[x] == ys[y]
    }

    lemma FwdRight(c: int, d: int, x: int)
      requires Valid() && FwdReach(c, d - 1, x)
      ensures FwdReach(c + 1, d, x + 1)
    {
      BackStep(xs, ys, xoff, Min(x + 1, xlim), yoff, Min(x - d + 1, ylim));
    }

    lemma FwdDown(c: int, d: int, x: int)
      requires Valid() && FwdReach(c, d + 1, x)
      ensures FwdReach(c + 1, d, x)
    {
      BackStep(xs, ys, xoff, Min(x, xlim), yoff, Min(x - d, ylim));
    }

    lemma FwdSnake(c: int, d: int, x: int)
      requires Valid() && FwdReach(c, d, x) && Match(x, x - d)
      ensures FwdReach(c, d, x + 1)
    {
      BackUnroll(xs, ys, xoff, x + 1, yoff, x - d + 1);
    }

    lemma BwdUp(c: int, d: int, x: int)
      requires Valid() && BwdReach(c, d - 1, x)
      ensures BwdReach(c + 1, d, x)
    {
      FrontStep(xs, ys, Max(x, xoff), xlim, Max(x - d, yoff), ylim);
    }

    lemma BwdLeft(c: int, d: int, x: int)
      requires Valid() && BwdReach(c, d + 1, x)
      ensures BwdReach(c + 1, d, x - 1)
    {
      FrontStep(xs, ys, Max(x - 1, xoff), xlim, Max(x - d - 1, yoff), ylim);
    }

    lemma BwdSnake(c: int, d: int, x: int)
      requires Valid() && BwdReach(c, d, x) && Match(x - 1, x - d - 1)
      ensures BwdReach(c, d, x - 1)
    {
    }

    /** Following a match costs nothing in either direction. */
    lemma MatchKeeps(x: int, y: int)
      requires Valid() && Match(x, y)
      ensures Fwd(x + 1, y + 1) == Fwd(x, y) && Bwd(x + 1, y + 1) == Bwd(x, y)
    {
      BackUnroll(xs, ys, xoff, x + 1, yoff, y + 1);
    }

    /** Walking along a diagonal never lowers the forward cost nor raises the backward cost. */
    lemma {:induction false} DiagonalMonotone(x: int, y: int, k: int)
      requires Valid() && 0 <= k && In(x, y) && In(x + k, y + k)
      ensures Fwd(x, y) <= Fwd(x + k, y + k)
      ensures Bwd(x + k, y + k) <= Bwd(x, y)
      decreases k
    {
      if k > 0 {
        DiagonalMonotone(x, y, k - 1);
        BackStep(xs, ys, xoff, x + k - 1, yoff, y + k);
        BackStep(xs, ys, xoff, x + k, yoff, y + k - 1);
        BackUnroll(xs, ys, xoff, x + k, yoff, y + k);
        FrontStep(xs, ys, x + k - 1, xlim, y + k, ylim);
        FrontStep(xs, ys, x + k, xlim, y + k - 1, ylim);
      }
    }

    /**
      When a forward reach of cost cf has passed a backward reach of cost cb on the same diagonal
      and no cheaper way through the box exists, neither reach has left the box, and both reaches
      lie on a cheapest way.
     */
    lemma Meet(cf: int, cb: int, d: int, x: int, u: int)
      requires Valid() && FwdReach(cf, d, x) && BwdReach(cb, d, u) && u <= x
      requires Total() >= cf + cb
      ensures In(x, x - d) && In(u, u - d)
      ensures Fwd(x, x - d) == Fwd(u, u - d) == cf && Bwd(x, x - d) == Bwd(u, u - d) == cb
      ensures Total() == cf + cb
    {
      hide Dist;
      var y, v := x - d, u - d;
      var px, py, qx, qy := Min(x, xlim), Min(y, ylim), Max(u, xoff), Max(v, yoff);
      Triangle(xs, ys, xoff, px, xlim, yoff, py, ylim);
      Triangle(xs, ys, xoff, qx, xlim, yoff, qy, ylim);
      DistShape(xs, ys, qx, xlim, qy, ylim);
      DistShape(xs, ys, xoff, px, yoff, py);
      DistShape(xs, ys, px, xlim, py, ylim);
      DistShape(xs, ys, xoff, qx, yoff, qy);
      assert x <= xlim && y <= ylim;
      assert xoff <= u && yoff <= v;
      DiagonalMonotone(u, v, x - u);
    }

    /** Pulling an overrunning forward reach back along its diagonal into the box does not make it dearer. */
    lemma FwdPullBack(c: int, d: int, x: int) returns (px: int)
      requires Valid() && FwdReach(c, d, x) && Dmin() <= d <= Dmax()
      ensures px == Min(Min(x, xlim), ylim + d) && In(px, px - d) && Fwd(px, px - d) <= c
    {
      px := Min(Min(x, xlim), ylim + d);
      BackSteps(px, px - d, Min(x, xlim), Min(x - d, ylim));
    }

    lemma BwdPullBack(c: int, d: int, x: int) returns (px: int)
      requires Valid() && BwdReach(c, d, x) && Dmin() <= d <= Dmax()
      ensures px == Max(Max(x, xoff), yoff + d) && In(px, px - d) && Bwd(px, px - d) <= c
    {
      px := Max(Max(x, xoff), yoff + d);
      FrontSteps(Max(x, xoff), Max(x - d, yoff), px, px - d);
    }

    lemma {:induction false} BackSteps(x: int, y: int, x1: int, y1: int)
      requires Valid() && In(x, y) && In(x1, y1) && x <= x1 && y <= y1
      ensures Fwd(x, y) <= Fwd(x1, y1) + (x1 - x) + (y1 - y)
      decreases x1 - x + y1 - y
    {
      BackStep(xs, ys, xoff, x1, yoff, y1);
      if x < x1 {
        BackSteps(x, y, x1 - 1, y1);
      } else if y < y1 {
        BackSteps(x, y, x1, y1 - 1);
      }
    }

    lemma {:induction false} FrontSteps(x: int, y: int, x1: int, y1: int)
      requires Valid() && In(x, y) && In(x1, y1) && x <= x1 && y <= y1
      ensures Bwd(x1, y1) <= Bwd(x, y) + (x1 - x) + (y1 - y)
      decreases x1 - x + y1 - y
    {
      FrontStep(xs, ys, x, xlim, y, ylim);
      if x < x1 {
        FrontSteps(x + 1, y, x1, y1);
      } else if y < y1 {
        FrontSteps(x, y + 1, x1, y1);
      }
    }

    /** A point without a match before it is reached by one change from a neighbour. */
    lemma FwdBefore(x: int, y: int) returns (px: int, py: int)
      requires Valid() && In(x, y) && !Match(x - 1, y - 1) && !(x == xoff && y == yoff)
      ensures (px == x - 1 && py == y) || (px == x && py == y - 1)
      ensures In(px, py) && Fwd(px, py) + 1 == Fwd(x, y)
    {
      if x == xoff {
        return x, y - 1;
      }
      if y == yoff {
        return x - 1, y;
      }
      BackUnroll(xs, ys, xoff, x, yoff, y);
      if Fwd(x - 1, y) + 1 == Fwd(x, y) {
        return x - 1, y;
      }
      return x, y - 1;
    }

    /** A point without a match after it is one change away from a neighbour. */
    lemma BwdAfter(x: int, y: int) returns (px: int, py: int)
      requires Valid() && In(x, y) && !Match(x, y) && !(x == xlim && y == ylim)
      ensures (px == x + 1 && py == y) || (px == x && py == y + 1)
      ensures In(px, py) && Bwd(px, py) + 1 == Bwd(x, y)
    {
      if x == xlim {
        return x, y + 1;
      }
      if y == ylim || Bwd(x + 1, y) + 1 == Bwd(x, y) {
        return x + 1, y;
      }
      return x, y + 1;
    }

    /** Every cost up to the total is attained at some point of a cheapest way. */
    lemma {:induction false} OnTheWay(x: int, y: int, k: int) returns (px: int, py: int)
      requires Valid() && In(x, y) && Fwd(x, y) <= k <= Total()
      requires Fwd(x, y) + Bwd(x, y) == Total()
      ensures In(px, py) && Fwd(px, py) == k && Bwd(px, py) == Total() - k
      decreases xlim - x + ylim - y
    {
      hide Dist;
      if Fwd(x, y) == k {
        return x, y;
      }
      DistShape(xs, ys, xlim, xlim, ylim, ylim);
      if Match(x, y) {
        MatchKeeps(x, y);
        px, py := OnTheWay(x + 1, y + 1, k);
      } else {
        px, py := BwdAfter(x, y);
        BackStep(xs, ys, xoff, px, yoff, py);
        Triangle(xs, ys, xoff, px, xlim, yoff, py, ylim);
        px, py := OnTheWay(px, py, k);
      }
    }

    lemma FwdParity(x: int, y: int)
      requires Valid() && In(x, y)
      ensures (Fwd(x, y) - (x - y) + Fmid()) % 2 == 0
      ensures Fwd(x, y) >= 0 && (Fwd(x, y) == 0 ==> x - y == Fmid())
    {
      DistShape(xs, ys, xoff, x, yoff, y);
    }

    lemma BwdParity(x: int, y: int)
      requires Valid() && In(x, y)
      ensures (Bwd(x, y) - (x - y) + Bmid()) % 2 == 0
      ensures Bwd(x, y) >= 0 && (Bwd(x, y) == 0 ==> x - y == Bmid())
    {
      DistShape(xs, ys, x, xlim, y, ylim);
    }
  }
}
