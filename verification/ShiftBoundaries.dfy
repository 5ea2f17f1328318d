/**
  Sliding the runs of changed lines (`shift_boundaries`).

  A run may be moved over equal lines without changing what the diff means.  `compareseq` usually
  marks the first of several equal lines; this pass prefers the last and lines runs of the two files
  up with each other.
 */
module ShiftBoundaries {
  import opened Alignment
  import opened FlagVector

  /** The lines [s, t) are a maximal run of marked lines. */
  ghost predicate IsRun(c: seq<bool>, s: int, t: int) {
    && 0 <= s < t && t + 1 < |c|
    && !c[s] && !c[t + 1]
    && forall k {:trigger c[k]} :: s < k <= t ==> c[k]
  }

  /** Line j is the unmarked line, or the end, that comes after exactly u unmarked lines. */
  ghost predicate Stands(o: seq<bool>, j: int, u: int) {
    0 <= j && j + 1 < |o| && !o[j + 1] && Unmarked(o, j) == u
  }

  /** A run of the other file ends where equally many lines are unmarked. */
  ghost predicate Beside(o: seq<bool>, u: int) {
    exists j :: Stands(o, j, u) && o[j]
  }

  /** The same for a run that ends at line u, where w is the number of unmarked lines before it less u. */
  ghost predicate BesideAt(o: seq<bool>, w: int, u: int) { Beside(o, w + u) }

  /** A run of len lines that ends at line t may be moved over equal lines so that it ends at line u. */
  ghost predicate Slides(e: seq<int>, len: int, t: int, u: int) {
    && 0 < len <= t <= |e| && len <= u <= |e|
    && forall k {:trigger e[k]} :: u <= k < t || t <= k < u ==> e[k] == e[k - len]
  }

  /**
    Where a finished run ends: of the places that it may be moved to, at the last one beside a run of the
    other file, and if there is none, as far down as it can be moved.  No place further up touches another run.
   */
  ghost predicate Settled(e: seq<int>, c: seq<bool>, o: seq<bool>, s: int, t: int)
    requires Flags(c, |e|) && IsRun(c, s, t)
  {
    var len, w := t - s, Unmarked(c, t) - t;
    && (forall u {:trigger BesideAt(o, w, u)} :: Slides(e, len, t, u) && t < u ==> !BesideAt(o, w, u))
    && (!BesideAt(o, w, t) ==>
          && (t == |e| || e[s] != e[t])
          && forall u {:trigger BesideAt(o, w, u)} :: Slides(e, len, t, u) ==> !BesideAt(o, w, u))
    && (forall u {:trigger Slides(e, len, t, u)} :: Slides(e, len, t, u) && u <= t ==> !c[u - len])
  }

  ghost predicate AllSettled(e: seq<int>, c: seq<bool>, o: seq<bool>, before: int)
    requires Flags(c, |e|)
  {
    forall s, t {:trigger IsRun(c, s, t)} :: IsRun(c, s, t) && t < before ==> Settled(e, c, o, s, t)
  }

  /** Moving a run one line down: its first line a is released and the equal line b after it is taken. */
  ghost predicate Slid(e: seq<int>, c: seq<bool>, d: seq<bool>, a: int, b: int) {
    && Flags(c, |e|) && |d| == |c| && 0 <= a < b < |e| && e[a] == e[b]
    && !c[b + 1] && (forall k {:trigger c[k]} :: a < k <= b ==> c[k])
    && d == c[a + 1 := false][b + 1 := true]
  }

  /** Sliding keeps the unmarked codes, the number of marks and, outside the run, every prefix count. */
  lemma SlideKeeps(e: seq<int>, c: seq<bool>, d: seq<bool>, a: int, b: int)
    requires Slid(e, c, d, a, b)
    ensures Flags(d, |e|)
    ensures Kept(e, Body(d)) == Kept(e, Body(c)) && Marked(Body(d)) == Marked(Body(c))
    ensures forall i :: 0 <= i <= a ==> Unmarked(d, i) == Unmarked(c, i)
    ensures forall i :: a < i <= b ==> Unmarked(d, i) == Unmarked(c, i) + 1
    ensures forall i :: b < i <= |e| ==> Unmarked(d, i) == Unmarked(c, i)
  {
    assert Body(d) == Body(c)[a := false][b := true];
    SwapMarks(e, Body(c), a, b);
    SlidCounts(e, c, d, a, b);
  }

  /** Releasing a marked line and marking an equal one at the end of the run leaves the same codes unmarked. */
  lemma {:induction false} SwapMarks(s: seq<int>, c: seq<bool>, a: int, b: int)
    requires |s| == |c| && 0 <= a < b < |s| && s[a] == s[b] && !c[b]
    requires forall k :: a <= k < b ==> c[k]
    ensures Kept(s, c[a := false][b := true]) == Kept(s, c)
    ensures Marked(c[a := false][b := true]) == Marked(c)
    decreases a
  {
    hide Kept, Marked;
    var d := c[a := false][b := true];
    KeptHead(s, c);
    KeptHead(s, d);
    if a == 0 {
      TakeLater(s[1..], c[1..], b - 1);
      assert d[1..] == c[1..][b - 1 := true];
    } else {
      SwapMarks(s[1..], c[1..], a - 1, b - 1);
      assert d[1..] == c[1..][a - 1 := false][b - 1 := true];
    }
  }

  lemma {:induction false} TakeLater(s: seq<int>, c: seq<bool>, k: int)
    requires |s| == |c| && 0 <= k < |s| && !c[k]
    requires forall i :: 0 <= i < k ==> c[i]
    ensures [s[k]] + Kept(s, c[k := true]) == Kept(s, c)
    ensures Marked(c[k := true]) == Marked(c) + 1
    decreases k
  {
    hide Kept, Marked;
    var d := c[k := true];
    KeptHead(s, c);
    KeptHead(s, d);
    if k == 0 {
      assert d[1..] == c[1..];
    } else {
      TakeLater(s[1..], c[1..], k - 1);
      assert d[1..] == c[1..][k - 1 := true];
    }
  }

  lemma SlidCounts(e: seq<int>, c: seq<bool>, d: seq<bool>, a: int, b: int)
    requires Slid(e, c, d, a, b)
    ensures forall i :: 0 <= i <= a ==> Unmarked(d, i) == Unmarked(c, i)
    ensures forall i :: a < i <= b ==> Unmarked(d, i) == Unmarked(c, i) + 1
    ensures forall i :: b < i <= |e| ==> Unmarked(d, i) == Unmarked(c, i)
  {
    forall i | 0 <= i <= |e|
      ensures Unmarked(d, i) == Unmarked(c, i) + (if a < i <= b then 1 else 0)
    {
      SlidCount(e, c, d, a, b, i);
    }
  }

  lemma {:induction false} SlidCount(e: seq<int>, c: seq<bool>, d: seq<bool>, a: int, b: int, i: int)
    requires Slid(e, c, d, a, b) && 0 <= i <= |e|
    ensures Unmarked(d, i) == Unmarked(c, i) + (if a < i <= b then 1 else 0)
  {
    if i > 0 {
      SlidCount(e, c, d, a, b, i - 1);
    }
  }

  // ----- the walk over the runs

  /** Same unmarked codes, same number of marks. */
  ghost predicate Equivalent(e: seq<int>, c: seq<bool>, d: seq<bool>) {
    Flags(c, |e|) && Flags(d, |e|) && Kept(e, Body(c)) == Kept(e, Body(d)) && Marked(Body(c)) == Marked(Body(d))
  }

  /** The other file's flags match this file's: both leave equally many lines unmarked. */
  ghost predicate Balanced(e: seq<int>, c: seq<bool>, o: seq<bool>) {
    Flags(c, |e|) && Flags(o, |o| - 2) && Unmarked(c, |e|) == Unmarked(o, |o| - 2)
  }

  /** The state of the inner loops: a maximal run [start, i) and the corresponding line j of the other file. */
  ghost predicate AtRun(e: seq<int>, c: seq<bool>, o: seq<bool>, start: int, i: int, j: int) {
    Balanced(e, c, o) && IsRun(c, start, i) && Stands(o, j, Unmarked(c, i))
  }

  /** What decreases: the marked lines at or after i, up to a constant. */
  ghost function Ahead(e: seq<int>, c: seq<bool>, i: int): int
    requires Flags(c, |e|) && 0 <= i <= |e|
  {
    |e| - i + Unmarked(c, i)
  }

  lemma SettledFrame(e: seq<int>, c: seq<bool>, d: seq<bool>, o: seq<bool>, before: int, upTo: int)
    requires Flags(c, |e|) && Flags(d, |e|) && upTo <= before <= |e| + 1 && AllSettled(e, c, o, before)
    requires forall k :: 0 <= k <= upTo && k < |c| ==> c[k] == d[k]
    ensures AllSettled(e, d, o, upTo)
  {
    forall s, t {:trigger IsRun(d, s, t)} | IsRun(d, s, t) && t < upTo
      ensures Settled(e, d, o, s, t)
    {
      assert IsRun(c, s, t);
      UnmarkedSame(c, d, t);
      assert Settled(e, c, o, s, t);
    }
  }

  /** Only one line of the other file stands after so many unmarked lines. */
  lemma StandsOnce(o: seq<bool>, j: int, k: int, u: int)
    requires |o| >= 2 && Stands(o, j, u) && Stands(o, k, u)
    ensures j == k
  {
    if j < k {
      UnmarkedBounds(o, j + 1, k);
    } else if k < j {
      UnmarkedBounds(o, k + 1, j);
    }
  }

  lemma BesideHere(o: seq<bool>, j: int, u: int)
    requires |o| >= 2 && Stands(o, j, u)
    ensures Beside(o, u) <==> o[j]
  {
    if Beside(o, u) {
      var k :| Stands(o, k, u) && o[k];
      StandsOnce(o, j, k, u);
    }
  }

  /** One step back: the line before the run is taken and the equal last line of the run is released. */
  lemma StepBack(e: seq<int>, c: seq<bool>, start: int, i: int)
    requires Flags(c, |e|) && 0 < start < i <= |e| && IsRun(c, start, i) && e[start - 1] == e[i - 1]
    ensures var d := c[start := true][i := false];
            && Equivalent(e, c, d)
            && Unmarked(d, i - 1) == Unmarked(c, i) - 1
            && Unmarked(d, |e|) == Unmarked(c, |e|)
  {
    var d := c[start := true][i := false];
    assert Slid(e, d, c, start - 1, i - 1);
    SlideKeeps(e, d, c, start - 1, i - 1);
  }

  lemma StepForward(e: seq<int>, c: seq<bool>, start: int, i: int)
    requires Flags(c, |e|) && 0 <= start < i < |e| && IsRun(c, start, i) && e[start] == e[i]
    ensures var d := c[start + 1 := false][i + 1 := true];
            && Equivalent(e, c, d)
            && Unmarked(d, i + 1) == Unmarked(c, i) + 1
            && Unmarked(d, |e|) == Unmarked(c, |e|)
  {
    var d := c[start + 1 := false][i + 1 := true];
    assert Slid(e, c, d, start, i);
    SlideKeeps(e, c, d, start, i);
  }

  /** The previous unmarked line of the other file. */
  method PreviousUnmarked(other: array<bool>, j0: int) returns (j: int)
    requires other.Length >= 2 && Flags(other[..], other.Length - 2)
    requires 0 <= j0 && j0 + 1 < other.Length && Unmarked(other[..], j0) > 0
    ensures Stands(other[..], j, Unmarked(other[..], j0) - 1)
  {
    ghost var o := other[..];
    j := j0 - 1;
    while other[j + 1]
      invariant 0 <= j < j0 && Unmarked(o, j + 1) == Unmarked(o, j0)
      decreases j
    {
      j := j - 1;
    }
  }

  /** The next unmarked line of the other file, or its end, and whether marked lines were passed on the way. */
  method NextUnmarked(other: array<bool>, j0: int) returns (j: int, passed: bool)
    requires other.Length >= 2 && Flags(other[..], other.Length - 2) && 0 <= j0 < other.Length - 2
    requires !other[j0 + 1]
    ensures Stands(other[..], j, Unmarked(other[..], j0 + 1))
    ensures passed <==> other[j]
  {
    ghost var o := other[..];
    j, passed := j0 + 1, false;
    while other[j + 1]
      invariant 0 <= j <= |o| - 2 && Unmarked(o, j) == Unmarked(o, j0 + 1)
      invariant passed <==> o[j]
      decreases |o| - j
    {
      passed := true;
      j := j + 1;
    }
  }

  /** Moves the run back while the line before it equals its last line. */
  method MoveBack(e: seq<int>, changed: array<bool>, other: array<bool>, start0: int, i0: int, j0: int)
    returns (start: int, i: int, j: int)
    requires changed != other && AtRun(e, changed[..], other[..], start0, i0, j0)
    requires AllSettled(e, changed[..], other[..], start0)
    modifies changed
    ensures AtRun(e, changed[..], other[..], start, i, j) && Equivalent(e, old(changed[..]), changed[..])
    ensures AllSettled(e, changed[..], other[..], start)
    ensures i - start >= i0 - start0 && Ahead(e, changed[..], i) <= Ahead(e, old(changed[..]), i0)
    ensures start == 0 || e[start - 1] != e[i - 1]
  {
    hide Kept, Marked, Unmarked, AllSettled;
    start, i, j := start0, i0, j0;
    ghost var c0, o := changed[..], other[..];
    while start > 0 && e[start - 1] == e[i - 1]
      invariant AtRun(e, changed[..], o, start, i, j) && Equivalent(e, c0, changed[..])
      invariant AllSettled(e, changed[..], o, start)
      invariant i - start >= i0 - start0 && Ahead(e, changed[..], i) <= Ahead(e, c0, i0)
      decreases start
    {
      ghost var c, start1 := changed[..], start;
      StepBack(e, c, start, i);
      start := start - 1;
      changed[start + 1] := true;
      i := i - 1;
      changed[i + 1] := false;
      ghost var d := changed[..];
      assert d == c[start + 1 := true][i + 1 := false];
      while changed[start]
        invariant changed[..] == d
        invariant 0 <= start < start1 && forall k {:trigger d[k]} :: start < k <= i ==> d[k]
        decreases start
      {
        start := start - 1;
      }
      UnmarkedBounds(d, 0, i);
      j := PreviousUnmarked(other, j);
      SettledFrame(e, c, d, o, start1, start);
    }
  }

  /** No run ends right after an unmarked line. */
  lemma SettledExtend(e: seq<int>, c: seq<bool>, o: seq<bool>, upTo: int)
    requires Flags(c, |e|) && 0 <= upTo <= |e| && AllSettled(e, c, o, upTo) && !c[upTo]
    ensures AllSettled(e, c, o, upTo + 1)
  {
  }

  lemma SettledRun(e: seq<int>, c: seq<bool>, o: seq<bool>, start: int, i: int)
    requires Flags(c, |e|) && IsRun(c, start, i) && AllSettled(e, c, o, start) && Settled(e, c, o, start, i)
    ensures AllSettled(e, c, o, i + 1)
  {
    forall s, t {:trigger IsRun(c, s, t)} | IsRun(c, s, t) && t < i + 1
      ensures Settled(e, c, o, s, t)
    {
      if t >= start {
        assert t == i;
        assert s == start;
      }
    }
  }

  /** The places to which a run of len lines may be moved are those between low and top. */
  ghost predicate Slack(e: seq<int>, len: int, low: int, top: int) {
    && 0 < len <= low <= top <= |e| && (forall k {:trigger e[k]} :: low <= k < top ==> e[k] == e[k - len])
    && (low == len || e[low - 1] != e[low - 1 - len])
  }

  /**
    The last place between low and top beside a run of the other file is `corr`, or there is none.  A run
    that ends at line u there leaves u + w lines unmarked before its end.
   */
  ghost predicate LastBeside(o: seq<bool>, low: int, top: int, w: int, found: bool, corr: int) {
    && (found ==> low <= corr <= top && BesideAt(o, w, corr))
    && (forall u :: (if found then corr < u else low <= u) && u <= top ==> !BesideAt(o, w, u))
  }

  /** A run [start, i) of unchanged length has been moved down from `low`. */
  ghost predicate Tracked(e: seq<int>, c: seq<bool>, o: seq<bool>, start: int, i: int, low: int, found: bool, corr: int,
                          len: int) {
    && Flags(c, |e|) && 0 <= start <= i <= |e| && len == i - start && Slack(e, len, low, i)
    && (forall k {:trigger c[k]} :: low - len <= k <= start ==> !c[k])
    && LastBeside(o, low, i, Unmarked(c, i) - i, found, corr)
  }

  lemma TrackedHere(e: seq<int>, c: seq<bool>, o: seq<bool>, start: int, i: int, j: int)
    requires Flags(c, |e|) && |o| >= 2 && IsRun(c, start, i) && Stands(o, j, Unmarked(c, i))
    requires start == 0 || e[start - 1] != e[i - 1]
    ensures Tracked(e, c, o, start, i, i, o[j], i, i - start)
  {
    BesideHere(o, j, Unmarked(c, i));
  }

  /** One step down; j is the line of the other file after it. */
  lemma TrackedStep(e: seq<int>, c: seq<bool>, d: seq<bool>, o: seq<bool>, start: int, i: int, j: int, low: int,
                    found: bool, corr: int, len: int)
    requires Flags(d, |e|) && |o| >= 2 && 0 <= start < i < |e| && e[start] == e[i]
    requires Tracked(e, c, o, start, i, low, found, corr, len) && d == c[start + 1 := false][i + 1 := true]
    requires Unmarked(d, i + 1) == Unmarked(c, i) + 1 && Stands(o, j, Unmarked(d, i + 1))
    ensures Tracked(e, d, o, start + 1, i + 1, low, found || o[j], if o[j] then i + 1 else corr, len)
  {
    hide Beside;
    BesideHere(o, j, Unmarked(d, i + 1));
    var w := Unmarked(c, i) - i;
    assert w == Unmarked(d, i + 1) - (i + 1) && w + (i + 1) == Unmarked(d, i + 1);
    assert BesideAt(o, w, i + 1) <==> o[j];
  }

  /** The next unmarked line of the other file exists as long as this file has one left. */
  lemma OtherHasNext(e: seq<int>, c: seq<bool>, o: seq<bool>, start: int, i: int, j: int)
    requires AtRun(e, c, o, start, i, j) && i < |e|
    ensures j < |o| - 2 && Unmarked(o, j + 1) == Unmarked(c, i) + 1
  {
    UnmarkedBounds(c, i + 1, |e|);
    assert Unmarked(c, i + 1) == Unmarked(c, i) + 1;
  }

  /** One step forward, and on over the runs that follow without a gap. */
  method SlideForward(e: seq<int>, changed: array<bool>, start0: int, i0: int) returns (start: int, i: int)
    requires Flags(changed[..], |e|) && 0 <= start0 < i0 < |e| && IsRun(changed[..], start0, i0) && e[start0] == e[i0]
    modifies changed
    ensures Equivalent(e, old(changed[..]), changed[..])
    ensures changed[..] == old(changed[..])[start0 + 1 := false][i0 + 1 := true]
    ensures start == start0 + 1 && i0 < i <= |e| && IsRun(changed[..], start, i)
    ensures Unmarked(changed[..], i0 + 1) == Unmarked(changed[..], i) == Unmarked(old(changed[..]), i0) + 1
    ensures Unmarked(changed[..], |e|) == Unmarked(old(changed[..]), |e|)
  {
    hide Kept, Marked, Unmarked;
    StepForward(e, changed[..], start0, i0);
    start, i := start0, i0;
    changed[start + 1] := false;
    start := start + 1;
    changed[i + 1] := true;
    i := i + 1;
    ghost var d := changed[..];
    assert d == old(changed[..])[start0 + 1 := false][i0 + 1 := true];
    while changed[i + 1]
      invariant changed[..] == d
      invariant i0 < i <= |e| && forall k {:trigger d[k]} :: start < k <= i ==> d[k]
      decreases |e| - i
    {
      i := i + 1;
    }
    UnmarkedRun(d, i0 + 1, i);
  }

  /**
    Moves the run forward while its first line equals the line after it; remembers where it last met a run
    of the other file.
   */
  method MoveForward(e: seq<int>, changed: array<bool>, other: array<bool>, start0: int, i0: int, j0: int)
    returns (start: int, i: int, j: int, corresponding: int, ghost found: bool)
    requires changed != other && AtRun(e, changed[..], other[..], start0, i0, j0)
    requires AllSettled(e, changed[..], other[..], start0)
    requires start0 == 0 || e[start0 - 1] != e[i0 - 1]
    modifies changed
    ensures AtRun(e, changed[..], other[..], start, i, j) && Equivalent(e, old(changed[..]), changed[..])
    ensures AllSettled(e, changed[..], other[..], start)
    ensures i - start >= i0 - start0 && Ahead(e, changed[..], i) <= Ahead(e, old(changed[..]), i0)
    ensures i == |e| || e[start] != e[i]
    ensures (!found ==> corresponding == |e|)
    ensures i - start == i0 - start0 ==>
              Tracked(e, changed[..], other[..], start, i, i0, found, corresponding, i0 - start0)
  {
    hide Kept, Marked, Unmarked, AllSettled, Tracked, Slides;
    start, i, j := start0, i0, j0;
    corresponding := if other[j] then i else |e|;
    ghost var c0, o, len := changed[..], other[..], i0 - start0;
    found := other[j];
    TrackedHere(e, c0, o, start, i, j);
    TrackedUnfound(e, c0, o, start, i, i, found, i, corresponding, len);
    while i != |e| && e[start] == e[i]
      invariant AtRun(e, changed[..], o, start, i, j) && Equivalent(e, c0, changed[..])
      invariant AllSettled(e, changed[..], o, start)
      invariant i - start >= len && Ahead(e, changed[..], i) <= Ahead(e, c0, i0)
      invariant !found ==> corresponding == |e|
      invariant i - start == len ==> Tracked(e, changed[..], o, start, i, i0, found, corresponding, len)
      decreases |e| - i
    {
      ghost var c := changed[..];
      OtherHasNext(e, c, o, start, i, j);
      start, i := SlideForward(e, changed, start, i);
      ghost var d := changed[..];
      var passed;
      j, passed := NextUnmarked(other, j);
      if i - start == len {
        TrackedStep(e, c, d, o, start - 1, i - 1, j, i0, found, corresponding, len);
      }
      if passed {
        corresponding, found := i, true;
      }
      SettledFrame(e, c, d, o, start - 1, start - 1);
      SettledExtend(e, d, o, start - 1);
    }
  }

  /** Where no place has been found it does not matter which line is noted. */
  lemma TrackedUnfound(e: seq<int>, c: seq<bool>, o: seq<bool>, start: int, i: int, low: int, found: bool, corr: int,
                       other: int, len: int)
    requires Tracked(e, c, o, start, i, low, found, corr, len) && (found ==> other == corr)
    ensures Tracked(e, c, o, start, i, low, found, other, len)
  {
    hide BesideAt;
  }

  /** The run [start, i) on its way back from `top`, where the last place is known. */
  ghost predicate Returning(e: seq<int>, c: seq<bool>, o: seq<bool>, start: int, i: int, low: int, top: int,
                            found: bool, corr: int) {
    var len := i - start;
    && Flags(c, |e|) && 0 <= start < i <= |e| && Slack(e, len, low, top) && low <= i <= top
    && (top == |e| || e[top] != e[top - len])
    && (forall k {:trigger c[k]} :: low - len <= k <= start ==> !c[k])
    && LastBeside(o, low, top, Unmarked(c, i) - i, found, corr) && (if found then corr <= i else i == top)
  }

  lemma ReturnStep(e: seq<int>, c: seq<bool>, o: seq<bool>, start: int, i: int, low: int, top: int, corr: int)
    requires Flags(c, |e|) && IsRun(c, start, i) && Returning(e, c, o, start, i, low, top, true, corr) && corr < i
    ensures start > 0 && e[start - 1] == e[i - 1]
    ensures var d := c[start := true][i := false];
            Unmarked(d, i - 1) == Unmarked(c, i) - 1 ==>
              IsRun(d, start - 1, i - 1) && Returning(e, d, o, start - 1, i - 1, low, top, true, corr)
  {
    assert e[i - 1] == e[i - 1 - (i - start)];
    var d := c[start := true][i := false];
    if Unmarked(d, i - 1) == Unmarked(c, i) - 1 {
      assert Unmarked(d, i - 1) - (i - 1) == Unmarked(c, i) - i;
    }
  }

  /** A run may be moved to the places between low and top, and to no other. */
  lemma SlackIsAll(e: seq<int>, len: int, low: int, top: int, t: int, u: int)
    requires Slack(e, len, low, top) && (top == |e| || e[top] != e[top - len]) && low <= t <= top
    ensures Slides(e, len, t, u) <==> low <= u <= top
  {
    assert low == len || e[low - 1] != e[low - 1 - len];
    assert top == |e| || e[top] != e[top - len];
  }

  lemma SlackEnds(e: seq<int>, len: int, low: int, top: int)
    requires Slack(e, len, low, top)
    ensures 0 < len <= low <= top <= |e|
  {
  }

  lemma ReturnedIsSettled(e: seq<int>, c: seq<bool>, o: seq<bool>, start: int, i: int, low: int, top: int, found: bool,
                          corr: int)
    requires Flags(c, |e|) && IsRun(c, start, i) && Returning(e, c, o, start, i, low, top, found, corr)
    requires found ==> i == corr
    ensures Settled(e, c, o, start, i)
  {
    hide Slack, Unmarked, Beside, Slides;
    forall u {:trigger Slides(e, i - start, i, u)}
      ensures Slides(e, i - start, i, u) <==> low <= u <= top
    {
      SlackIsAll(e, i - start, low, top, i, u);
    }
    SlackEnds(e, i - start, low, top);
  }

  lemma TrackedReturns(e: seq<int>, c: seq<bool>, o: seq<bool>, start: int, i: int, low: int, found: bool, corr: int)
    requires Tracked(e, c, o, start, i, low, found, corr, i - start) && IsRun(c, start, i)
    requires i == |e| || e[start] != e[i]
    ensures Returning(e, c, o, start, i, low, i, found, corr)
  {
  }

  lemma ReturnedBounds(e: seq<int>, c: seq<bool>, o: seq<bool>, start: int, i: int, low: int, top: int, found: bool,
                       corr: int)
    requires Returning(e, c, o, start, i, low, top, found, corr)
    ensures found ==> corr <= i
  {
  }

  /** Moves the run back to where it last met a run of the other file. */
  method MoveToCorresponding(e: seq<int>, changed: array<bool>, other: array<bool>, start0: int, i0: int, j0: int,
                             corresponding: int, ghost found: bool, ghost low: int)
    returns (i: int, j: int)
    requires changed != other && AtRun(e, changed[..], other[..], start0, i0, j0)
    requires AllSettled(e, changed[..], other[..], start0)
    requires i0 == |e| || e[start0] != e[i0]
    requires Tracked(e, changed[..], other[..], start0, i0, low, found, corresponding, i0 - start0)
    requires !found ==> corresponding == |e|
    modifies changed
    ensures Equivalent(e, old(changed[..]), changed[..]) && Balanced(e, changed[..], other[..])
    ensures 0 < i <= |e| && !changed[i + 1] && Stands(other[..], j, Unmarked(changed[..], i))
    ensures AllSettled(e, changed[..], other[..], i + 1)
    ensures Ahead(e, changed[..], i) <= Ahead(e, old(changed[..]), i0)
  {
    hide Kept, Marked, Unmarked, AllSettled, Returning;
    i, j := i0, j0;
    var start := start0;
    ghost var c0, o := changed[..], other[..];
    TrackedReturns(e, c0, o, start0, i0, low, found, corresponding);
    while corresponding < i
      invariant AtRun(e, changed[..], o, start, i, j) && Equivalent(e, c0, changed[..])
      invariant AllSettled(e, changed[..], o, start)
      invariant Ahead(e, changed[..], i) <= Ahead(e, c0, i0)
      invariant Returning(e, changed[..], o, start, i, low, i0, found, corresponding)
      decreases i
    {
      ghost var c := changed[..];
      ReturnStep(e, c, o, start, i, low, i0, corresponding);
      StepBack(e, c, start, i);
      start := start - 1;
      changed[start + 1] := true;
      i := i - 1;
      changed[i + 1] := false;
      ghost var d := changed[..];
      assert d == c[start + 1 := true][i + 1 := false];
      UnmarkedBounds(d, 0, i);
      j := PreviousUnmarked(other, j);
      SettledFrame(e, c, d, o, start + 1, start);
    }
    ReturnedBounds(e, changed[..], o, start, i, low, i0, found, corresponding);
    ReturnedIsSettled(e, changed[..], o, start, i, low, i0, found, corresponding);
    SettledRun(e, changed[..], o, start, i);
  }

  /**
    Slides every run of one file.  The unmarked codes and the number of marks stay as they were, the
    other file is only read, and every run ends up settled.
   */
  method ShiftOne(e: seq<int>, changed: array<bool>, other: array<bool>)
    requires changed != other && Balanced(e, changed[..], other[..])
    modifies changed
    ensures Equivalent(e, old(changed[..]), changed[..]) && Balanced(e, changed[..], other[..])
    ensures AllSettled(e, changed[..], other[..], |e| + 1)
  {
    hide Kept, Marked, AllSettled;
    var i, j := 0, 0;
    ghost var c0, o := changed[..], other[..];
    NothingSettled(e, c0, o);
    while true
      invariant Balanced(e, changed[..], o) && Equivalent(e, c0, changed[..])
      invariant 0 <= i <= |e| && 0 <= j < |o| - 1 && Unmarked(changed[..], i) == Unmarked(o, j)
      invariant !changed[i] || !changed[i + 1]
      invariant AllSettled(e, changed[..], o, i + 1)
      decreases Ahead(e, changed[..], i)
    {
      i, j := ScanToRun(e, changed, other, i, j);
      if i == |e| {
        break;
      }
      i, j := ShiftNextRun(e, changed, other, i, j);
      UnmarkedBounds(changed[..], i, i);
    }
  }

  /** Finds the end of the run that starts at line i0, slides it and leaves it where it belongs. */
  method ShiftNextRun(e: seq<int>, changed: array<bool>, other: array<bool>, i0: int, j0: int) returns (i: int, j: int)
    requires changed != other && Balanced(e, changed[..], other[..])
    requires 0 <= i0 < |e| && 0 <= j0 < other.Length - 1 && Unmarked(changed[..], i0) == Unmarked(other[..], j0)
    requires changed[i0 + 1] && !changed[i0]
    requires AllSettled(e, changed[..], other[..], i0 + 1)
    modifies changed
    ensures Balanced(e, changed[..], other[..]) && Equivalent(e, old(changed[..]), changed[..])
    ensures 0 < i <= |e| && !changed[i + 1] && Stands(other[..], j, Unmarked(changed[..], i))
    ensures AllSettled(e, changed[..], other[..], i + 1)
    ensures Ahead(e, changed[..], i) < Ahead(e, old(changed[..]), i0)
  {
    hide Kept, Marked, Unmarked, AllSettled, Tracked;
    i, j := i0, j0;
    var start := i;
    ghost var c, o := changed[..], other[..];
    i := i + 1;
    while changed[i + 1]
      invariant changed[..] == c
      invariant start < i <= |e| && forall k {:trigger c[k]} :: start < k <= i ==> c[k]
      decreases |e| - i
    {
      i := i + 1;
    }
    UnmarkedRun(c, start, i);
    while other[j + 1]
      invariant changed[..] == c
      invariant 0 <= j <= |o| - 2 && Unmarked(o, j) == Unmarked(c, i)
      decreases |o| - j
    {
      UnmarkedNext(o, j);
      j := j + 1;
    }
    SettledFrame(e, c, c, o, start + 1, start);
    var corresponding;
    ghost var found, low;
    start, i, j, corresponding, found, low := SlideRun(e, changed, other, start, i, j);
    i, j := MoveToCorresponding(e, changed, other, start, i, j, corresponding, found, low);
  }

  lemma NothingSettled(e: seq<int>, c: seq<bool>, o: seq<bool>)
    requires Flags(c, |e|)
    ensures AllSettled(e, c, o, 1)
  {
  }

  /** Skips unmarked lines; the other file's counter passes one unmarked line for each. */
  method ScanToRun(e: seq<int>, changed: array<bool>, other: array<bool>, i0: int, j0: int) returns (i: int, j: int)
    requires Balanced(e, changed[..], other[..])
    requires 0 <= i0 <= |e| && 0 <= j0 < other.Length - 1 && Unmarked(changed[..], i0) == Unmarked(other[..], j0)
    requires !changed[i0] || !changed[i0 + 1]
    requires AllSettled(e, changed[..], other[..], i0 + 1)
    ensures i0 <= i <= |e| && 0 <= j < other.Length - 1 && Unmarked(changed[..], i) == Unmarked(other[..], j)
    ensures i < |e| ==> changed[i + 1] && !changed[i]
    ensures AllSettled(e, changed[..], other[..], i + 1)
    ensures Ahead(e, changed[..], i) == Ahead(e, changed[..], i0)
  {
    hide AllSettled;
    i, j := i0, j0;
    ghost var c, o := changed[..], other[..];
    while i < |e| && !changed[i + 1]
      invariant i0 <= i <= |e| && 0 <= j < |o| - 1 && Unmarked(c, i) == Unmarked(o, j)
      invariant !c[i] || !c[i + 1]
      invariant AllSettled(e, c, o, i + 1)
      invariant Ahead(e, c, i) == Ahead(e, c, i0)
    {
      UnmarkedBounds(c, i + 1, |e|);
      while other[j + 1]
        invariant 0 <= j < |o| - 1 && Unmarked(c, i) == Unmarked(o, j)
        decreases |o| - j
      {
        j := j + 1;
      }
      assert j < |o| - 2;
      j := j + 1;
      i := i + 1;
      SettledExtend(e, c, o, i);
    }
  }

  /** The do-while loop: moves a run back and forth until it no longer grows. */
  method SlideRun(e: seq<int>, changed: array<bool>, other: array<bool>, start0: int, i0: int, j0: int)
    returns (start: int, i: int, j: int, corresponding: int, ghost found: bool, ghost low: int)
    requires changed != other && AtRun(e, changed[..], other[..], start0, i0, j0)
    requires AllSettled(e, changed[..], other[..], start0)
    modifies changed
    ensures AtRun(e, changed[..], other[..], start, i, j) && Equivalent(e, old(changed[..]), changed[..])
    ensures AllSettled(e, changed[..], other[..], start)
    ensures Ahead(e, changed[..], i) <= Ahead(e, old(changed[..]), i0)
    ensures i == |e| || e[start] != e[i]
    ensures Tracked(e, changed[..], other[..], start, i, low, found, corresponding, i - start)
    ensures !found ==> corresponding == |e|
  {
    hide Kept, Marked, Unmarked, AllSettled, Tracked;
    start, i, j, corresponding, found, low := start0, i0, j0, |e|, false, i0;
    ghost var c0, o := changed[..], other[..];
    var runlength := 0;
    while true
      invariant AtRun(e, changed[..], o, start, i, j) && Equivalent(e, c0, changed[..])
      invariant AllSettled(e, changed[..], o, start)
      invariant Ahead(e, changed[..], i) <= Ahead(e, c0, i0)
      decreases |e| - (i - start)
    {
      runlength := i - start;
      start, i, j := MoveBack(e, changed, other, start, i, j);
      low := i;
      start, i, j, corresponding, found := MoveForward(e, changed, other, start, i, j);
      if runlength == i - start {
        break;
      }
    }
  }

  /** Both files, one after the other. */
  method ShiftBoundaries(e0: seq<int>, e1: seq<int>, changed0: array<bool>, changed1: array<bool>)
    requires changed0 != changed1 && Flags(changed0[..], |e0|) && Flags(changed1[..], |e1|)
    requires Aligned(e0, e1, Body(changed0[..]), Body(changed1[..]))
    modifies changed0, changed1
    ensures Flags(changed0[..], |e0|) && Flags(changed1[..], |e1|)
    ensures Aligned(e0, e1, Body(changed0[..]), Body(changed1[..]))
    ensures Kept(e0, Body(changed0[..])) == Kept(e0, Body(old(changed0[..])))
    ensures Marked(Body(changed0[..])) == Marked(Body(old(changed0[..])))
    ensures Marked(Body(changed1[..])) == Marked(Body(old(changed1[..])))
    ensures AllSettled(e0, changed0[..], old(changed1[..]), |e0| + 1)
    ensures AllSettled(e1, changed1[..], changed0[..], |e1| + 1)
  {
    AlignedIsBalanced(e0, e1, changed0[..], changed1[..]);
    ShiftOne(e0, changed0, changed1);
    ShiftOne(e1, changed1, changed0);
  }
}
