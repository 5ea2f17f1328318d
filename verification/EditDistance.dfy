/**
  The reference meaning of "smallest difference between two runs of lines".

  `Dist` counts the lines that have to be inserted or deleted to turn one run of equivalence
  codes into another.  It is defined without any reference to the search that kdiff3 uses; the
  lemmas below are the geometric facts about the edit grid that the search relies on.
 */
module EditDistance {

  function Min(a: int, b: int): int { if a < b then a else b }

  function Max(a: int, b: int): int { if a < b then b else a }

  /** Fewest insertions and deletions between xs[x0..x1] and ys[y0..y1]. */
  ghost function Dist(xs: seq<int>, ys: seq<int>, x0: int, x1: int, y0: int, y1: int): int
    requires 0 <= x0 <= x1 <= |xs| && 0 <= y0 <= y1 <= |ys|
    decreases x1 - x0 + y1 - y0
  {
    if x0 == x1 then y1 - y0
    else if y0 == y1 then x1 - x0
    else if xs[x0] == ys[y0] then Dist(xs, ys, x0 + 1, x1, y0 + 1, y1)
    else 1 + Min(Dist(xs, ys, x0 + 1, x1, y0, y1), Dist(xs, ys, x0, x1, y0 + 1, y1))
  }

  /** Dropping one line at the front changes the distance by at most one. */
  lemma {:induction false} FrontStep(xs: seq<int>, ys: seq<int>, x0: int, x1: int, y0: int, y1: int)
    requires 0 <= x0 <= x1 <= |xs| && 0 <= y0 <= y1 <= |ys|
    ensures x0 < x1 ==> Dist(xs, ys, x0, x1, y0, y1) <= 1 + Dist(xs, ys, x0 + 1, x1, y0, y1)
    ensures x0 < x1 ==> Dist(xs, ys, x0 + 1, x1, y0, y1) <= 1 + Dist(xs, ys, x0, x1, y0, y1)
    ensures y0 < y1 ==> Dist(xs, ys, x0, x1, y0, y1) <= 1 + Dist(xs, ys, x0, x1, y0 + 1, y1)
    ensures y0 < y1 ==> Dist(xs, ys, x0, x1, y0 + 1, y1) <= 1 + Dist(xs, ys, x0, x1, y0, y1)
    decreases x1 - x0 + y1 - y0
  {
    if x0 < x1 {
      FrontStep(xs, ys, x0 + 1, x1, y0, y1);
    }
    if y0 < y1 {
      FrontStep(xs, ys, x0, x1, y0 + 1, y1);
    }
    if x0 < x1 && y0 < y1 {
      FrontStep(xs, ys, x0 + 1, x1, y0 + 1, y1);
    }
  }

  /** The same recursion read from the other end: the distance may be unrolled at the last lines. */
  lemma {:induction false} BackUnroll(xs: seq<int>, ys: seq<int>, x0: int, x1: int, y0: int, y1: int)
    requires 0 <= x0 < x1 <= |xs| && 0 <= y0 < y1 <= |ys|
    ensures Dist(xs, ys, x0, x1, y0, y1) ==
            if xs[x1 - 1] == ys[y1 - 1] then Dist(xs, ys, x0, x1 - 1, y0, y1 - 1)
            else 1 + Min(Dist(xs, ys, x0, x1 - 1, y0, y1), Dist(xs, ys, x0, x1, y0, y1 - 1))
    decreases x1 - x0 + y1 - y0
  {
    if x1 - x0 == 1 && y1 - y0 == 1 {
    } else if xs[x0] == ys[y0] {
      if x1 - x0 == 1 {
        OneLine(xs, ys, x0, y0, y1);
        OneLine(xs, ys, x0, y0, y1 - 1);
      } else if y1 - y0 == 1 {
        OneLineY(xs, ys, x0, x1, y0);
        OneLineY(xs, ys, x0, x1 - 1, y0);
      } else {
        BackUnroll(xs, ys, x0 + 1, x1, y0 + 1, y1);
      }
    } else {
      if x1 - x0 > 1 {
        BackUnroll(xs, ys, x0 + 1, x1, y0, y1);
      } else {
        OneLine(xs, ys, x0, y0, y1);
        OneLine(xs, ys, x0, y0, y1 - 1);
      }
      if y1 - y0 > 1 {
        BackUnroll(xs, ys, x0, x1, y0 + 1, y1);
      } else {
        OneLineY(xs, ys, x0, x1, y0);
        OneLineY(xs, ys, x0, x1 - 1, y0);
      }
    }
  }

  /** A single line against a run: it is either found in the run or not. */
  lemma {:induction false} OneLine(xs: seq<int>, ys: seq<int>, x0: int, y0: int, y1: int)
    requires 0 <= x0 < |xs| && 0 <= y0 <= y1 <= |ys|
    ensures Dist(xs, ys, x0, x0 + 1, y0, y1) ==
            if xs[x0] in ys[y0..y1] then y1 - y0 - 1 else y1 - y0 + 1
    decreases y1 - y0
  {
    if y0 < y1 {
      OneLine(xs, ys, x0, y0 + 1, y1);
      assert ys[y0..y1] == [ys[y0]] + ys[y0 + 1..y1];
    }
  }

  lemma {:induction false} OneLineY(xs: seq<int>, ys: seq<int>, x0: int, x1: int, y0: int)
    requires 0 <= x0 <= x1 <= |xs| && 0 <= y0 < |ys|
    ensures Dist(xs, ys, x0, x1, y0, y0 + 1) ==
            if ys[y0] in xs[x0..x1] then x1 - x0 - 1 else x1 - x0 + 1
    decreases x1 - x0
  {
    if x0 < x1 {
      OneLineY(xs, ys, x0 + 1, x1, y0);
      assert xs[x0..x1] == [xs[x0]] + xs[x0 + 1..x1];
    }
  }

  /** Dropping one line at the back changes the distance by at most one. */
  lemma {:induction false} BackStep(xs: seq<int>, ys: seq<int>, x0: int, x1: int, y0: int, y1: int)
    requires 0 <= x0 <= x1 <= |xs| && 0 <= y0 <= y1 <= |ys|
    ensures x0 < x1 ==> Dist(xs, ys, x0, x1, y0, y1) <= 1 + Dist(xs, ys, x0, x1 - 1, y0, y1)
    ensures x0 < x1 ==> Dist(xs, ys, x0, x1 - 1, y0, y1) <= 1 + Dist(xs, ys, x0, x1, y0, y1)
    ensures y0 < y1 ==> Dist(xs, ys, x0, x1, y0, y1) <= 1 + Dist(xs, ys, x0, x1, y0, y1 - 1)
    ensures y0 < y1 ==> Dist(xs, ys, x0, x1, y0, y1 - 1) <= 1 + Dist(xs, ys, x0, x1, y0, y1)
    decreases x1 - x0 + y1 - y0
  {
    if x0 < x1 {
      BackStep(xs, ys, x0, x1 - 1, y0, y1);
    }
    if y0 < y1 {
      BackStep(xs, ys, x0, x1, y0, y1 - 1);
    }
    if x0 < x1 && y0 < y1 {
      BackStep(xs, ys, x0, x1 - 1, y0, y1 - 1);
      BackUnroll(xs, ys, x0, x1, y0, y1);
    }
  }

  /** The distance of a box is bounded below by the difference of its side lengths and shares their parity. */
  lemma {:induction false} DistShape(xs: seq<int>, ys: seq<int>, x0: int, x1: int, y0: int, y1: int)
    requires 0 <= x0 <= x1 <= |xs| && 0 <= y0 <= y1 <= |ys|
    ensures Dist(xs, ys, x0, x1, y0, y1) >= (x1 - x0) - (y1 - y0)
    ensures Dist(xs, ys, x0, x1, y0, y1) >= (y1 - y0) - (x1 - x0)
    ensures Dist(xs, ys, x0, x1, y0, y1) <= (x1 - x0) + (y1 - y0)
    ensures (Dist(xs, ys, x0, x1, y0, y1) - (x1 - x0) - (y1 - y0)) % 2 == 0
    decreases x1 - x0 + y1 - y0
  {
    if x0 < x1 && y0 < y1 {
      if xs[x0] == ys[y0] {
        DistShape(xs, ys, x0 + 1, x1, y0 + 1, y1);
      } else {
        DistShape(xs, ys, x0 + 1, x1, y0, y1);
        DistShape(xs, ys, x0, x1, y0 + 1, y1);
      }
    }
  }

  /** Going through an intermediate point is never shorter. */
  lemma {:induction false} Triangle(xs: seq<int>, ys: seq<int>, x0: int, x1: int, x2: int, y0: int, y1: int, y2: int)
    requires 0 <= x0 <= x1 <= x2 <= |xs| && 0 <= y0 <= y1 <= y2 <= |ys|
    ensures Dist(xs, ys, x0, x2, y0, y2) <= Dist(xs, ys, x0, x1, y0, y1) + Dist(xs, ys, x1, x2, y1, y2)
    decreases x1 - x0 + y1 - y0
  {
    FrontStep(xs, ys, x0, x2, y0, y2);
    if x0 == x1 {
      if y0 < y1 {
        Triangle(xs, ys, x0, x1, x2, y0 + 1, y1, y2);
      }
    } else if y0 == y1 {
      Triangle(xs, ys, x0 + 1, x1, x2, y0, y1, y2);
    } else if xs[x0] == ys[y0] {
      Triangle(xs, ys, x0 + 1, x1, x2, y0 + 1, y1, y2);
    } else {
      Triangle(xs, ys, x0 + 1, x1, x2, y0, y1, y2);
      Triangle(xs, ys, x0, x1, x2, y0 + 1, y1, y2);
    }
  }

  /** A box whose first and last lines both mismatch costs at least two changes. */
  lemma {:induction false} TrimmedCostsTwo(xs: seq<int>, ys: seq<int>, x0: int, x1: int, y0: int, y1: int)
    requires 0 <= x0 < x1 <= |xs| && 0 <= y0 < y1 <= |ys|
    requires xs[x0] != ys[y0] && xs[x1 - 1] != ys[y1 - 1]
    ensures Dist(xs, ys, x0, x1, y0, y1) >= 2
  {
    if Dist(xs, ys, x0 + 1, x1, y0, y1) == 0 {
      ZeroMeansEqual(xs, ys, x0 + 1, x1, y0, y1);
    }
    if Dist(xs, ys, x0, x1, y0 + 1, y1) == 0 {
      ZeroMeansEqual(xs, ys, x0, x1, y0 + 1, y1);
    }
    DistShape(xs, ys, x0 + 1, x1, y0, y1);
    DistShape(xs, ys, x0, x1, y0 + 1, y1);
  }

  lemma {:induction false} ZeroMeansEqual(xs: seq<int>, ys: seq<int>, x0: int, x1: int, y0: int, y1: int)
    requires 0 <= x0 <= x1 <= |xs| && 0 <= y0 <= y1 <= |ys|
    requires Dist(xs, ys, x0, x1, y0, y1) == 0
    ensures x1 - x0 == y1 - y0
    ensures x0 < x1 ==> xs[x1 - 1] == ys[y1 - 1]
  {
    DistShape(xs, ys, x0, x1, y0, y1);
    if x0 < x1 {
      BackUnroll(xs, ys, x0, x1, y0, y1);
      DistShape(xs, ys, x0, x1 - 1, y0, y1);
      DistShape(xs, ys, x0, x1, y0, y1 - 1);
    }
  }
}
