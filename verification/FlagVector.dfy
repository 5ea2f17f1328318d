/**
  Flag vectors of a file: one flag per line and one extra element, always false, at each end.

  The flag of line k sits at index k + 1, so scans may look at line -1 and at the line after the last.
 */
module FlagVector {
  import opened Alignment

  /** A flag vector of a file of n lines. */
  ghost predicate Flags(c: seq<bool>, n: int) {
    0 <= n && |c| == n + 2 && !c[0] && !c[n + 1]
  }

  /** The flags without the sentinels. */
  ghost function Body(c: seq<bool>): seq<bool>
    requires |c| >= 2
  {
    c[1..|c| - 1]
  }

  /** The number of unmarked lines among the first i. */
  ghost function Unmarked(c: seq<bool>, i: int): int
    requires 0 <= i < |c|
  {
    if i == 0 then 0 else Unmarked(c, i - 1) + (if c[i] then 0 else 1)
  }

  lemma {:induction false} UnmarkedBounds(c: seq<bool>, i: int, k: int)
    requires 0 <= i <= k < |c|
    ensures Unmarked(c, i) <= Unmarked(c, k) <= Unmarked(c, i) + k - i
    ensures 0 <= Unmarked(c, i) <= i
    decreases k
  {
    if i < k {
      UnmarkedBounds(c, i, k - 1);
    } else if i > 0 {
      UnmarkedBounds(c, i - 1, k - 1);
    }
  }

  lemma {:induction false} UnmarkedSame(c: seq<bool>, d: seq<bool>, i: int)
    requires 0 <= i < |c| && i < |d| && forall k :: 0 < k <= i ==> c[k] == d[k]
    ensures Unmarked(c, i) == Unmarked(d, i)
  {
    if i > 0 {
      UnmarkedSame(c, d, i - 1);
    }
  }

  lemma {:induction false} UnmarkedRun(c: seq<bool>, s: int, t: int)
    requires 0 <= s <= t < |c| && forall k {:trigger c[k]} :: s < k <= t ==> c[k]
    ensures Unmarked(c, t) == Unmarked(c, s)
    decreases t
  {
    if s < t {
      UnmarkedRun(c, s, t - 1);
    }
  }

  lemma UnmarkedNext(o: seq<bool>, j: int)
    requires 0 <= j && j + 1 < |o| && o[j + 1]
    ensures Unmarked(o, j + 1) == Unmarked(o, j)
  {
  }

  lemma AlignedIsBalanced(e0: seq<int>, e1: seq<int>, c0: seq<bool>, c1: seq<bool>)
    requires Flags(c0, |e0|) && Flags(c1, |e1|) && Aligned(e0, e1, Body(c0), Body(c1))
    ensures Unmarked(c0, |e0|) == Unmarked(c1, |e1|)
  {
    hide Kept, Unmarked;
    UnmarkedIsKept(e0, c0, |e0|);
    UnmarkedIsKept(e1, c1, |e1|);
    assert e0[..|e0|] == e0 && e1[..|e1|] == e1;
    assert c0[1..|e0| + 1] == Body(c0) && c1[1..|e1| + 1] == Body(c1);
  }

  lemma {:induction false} UnmarkedIsKept(e: seq<int>, c: seq<bool>, i: int)
    requires Flags(c, |e|) && 0 <= i <= |e|
    ensures Unmarked(c, i) == |Kept(e[..i], c[1..i + 1])|
  {
    if i > 0 {
      UnmarkedIsKept(e, c, i - 1);
      KeptConcat(e[..i - 1], [e[i - 1]], c[1..i], [c[i]]);
      assert e[..i] == e[..i - 1] + [e[i - 1]] && c[1..i + 1] == c[1..i] + [c[i]];
    }
  }

  /** An unmarked line is found among the unmarked codes at its rank. */
  lemma {:induction false} KeptAt(e: seq<int>, c: seq<bool>, i: int, k: int)
    requires Flags(c, |e|) && 0 <= k < i <= |e| && !c[k + 1]
    ensures 0 <= Unmarked(c, k) < |Kept(e[..i], c[1..i + 1])| && Kept(e[..i], c[1..i + 1])[Unmarked(c, k)] == e[k]
    decreases i
  {
    UnmarkedBounds(c, k, k);
    KeptConcat(e[..i - 1], [e[i - 1]], c[1..i], [c[i]]);
    assert e[..i] == e[..i - 1] + [e[i - 1]] && c[1..i + 1] == c[1..i] + [c[i]];
    UnmarkedIsKept(e, c, i - 1);
    if k < i - 1 {
      KeptAt(e, c, i - 1, k);
    }
  }

  /** In a valid alignment, unmarked lines of equal rank are equal. */
  lemma SameRankEqual(e0: seq<int>, e1: seq<int>, c0: seq<bool>, c1: seq<bool>, k0: int, k1: int)
    requires Flags(c0, |e0|) && Flags(c1, |e1|) && Aligned(e0, e1, Body(c0), Body(c1))
    requires 0 <= k0 < |e0| && 0 <= k1 < |e1| && !c0[k0 + 1] && !c1[k1 + 1]
    requires Unmarked(c0, k0) == Unmarked(c1, k1)
    ensures e0[k0] == e1[k1]
  {
    hide Kept, Unmarked;
    KeptAt(e0, c0, |e0|, k0);
    KeptAt(e1, c1, |e1|, k1);
    assert e0[..|e0|] == e0 && e1[..|e1|] == e1;
    assert c0[1..|e0| + 1] == Body(c0) && c1[1..|e1| + 1] == Body(c1);
  }
}
