/**
  The character differ (`DiffList::calcDiff`, `DiffList::optimize`): it follows equal characters, looks
  for the nearest place where both lines match again, and goes back when equal characters end up
  just before that place.
 */
module CharDiff {
  import opened Lines
  import opened DiffLists

  // ----- equal characters

  /** How far the lines agree from (p1, p2) on. */
  ghost function Run(a: Line, b: Line, p1: int, p2: int): (n: int)
    ensures 0 <= n
    decreases |a| - p1
  {
    if 0 <= p1 < |a| && 0 <= p2 < |b| && a[p1] == b[p2] then 1 + Run(a, b, p1 + 1, p2 + 1) else 0
  }

  /** The sum of the positions that the equal characters from (p1, p2) on lead to. */
  ghost function Reach(a: Line, b: Line, p1: int, p2: int): int {
    p1 + p2 + 2 * Run(a, b, p1, p2)
  }

  /** There is nothing equal just before (p1, p2). */
  ghost predicate NoBack(a: Line, b: Line, p1: int, p2: int) {
    0 <= p1 <= |a| && 0 <= p2 <= |b| && (p1 > 0 && p2 > 0 ==> a[p1 - 1] != b[p2 - 1])
  }

  lemma {:induction false} RunStaysInside(a: Line, b: Line, p1: int, p2: int)
    requires 0 <= p1 <= |a| && 0 <= p2 <= |b|
    ensures p1 + Run(a, b, p1, p2) <= |a| && p2 + Run(a, b, p1, p2) <= |b|
    decreases |a| - p1
  {
    if p1 < |a| && p2 < |b| && a[p1] == b[p2] {
      RunStaysInside(a, b, p1 + 1, p2 + 1);
    }
  }

  lemma RunGrows<T>(a: seq<T>, b: seq<T>, p1: int, p2: int, n: int)
    requires EqualRun(a, b, p1, p2, n) && p1 + n < |a| && p2 + n < |b| && a[p1 + n] == b[p2 + n]
    ensures EqualRun(a, b, p1, p2, n + 1)
  {
    assert a[p1..p1 + n + 1] == a[p1..p1 + n] + [a[p1 + n]];
    assert b[p2..p2 + n + 1] == b[p2..p2 + n] + [b[p2 + n]];
  }

  lemma RunShrinks<T>(a: seq<T>, b: seq<T>, p1: int, p2: int, n: int)
    requires EqualRun(a, b, p1, p2, n) && 0 < n
    ensures EqualRun(a, b, p1, p2, n - 1)
  {
    ShorterSlice(a, p1, n);
    ShorterSlice(b, p2, n);
  }

  lemma ShorterSlice<T>(a: seq<T>, p: int, n: int)
    requires 0 <= p && 0 < n && p + n <= |a|
    ensures a[p..p + n - 1] == a[p..p + n][..n - 1]
  {
  }

  /** Follows equal characters. */
  method FollowEquals(a: Line, b: Line, p1: int, p2: int) returns (q1: int, q2: int, nofEquals: int)
    requires 0 <= p1 <= |a| && 0 <= p2 <= |b|
    ensures EqualRun(a, b, p1, p2, nofEquals) && q1 == p1 + nofEquals && q2 == p2 + nofEquals
    ensures Run(a, b, q1, q2) == 0 && Reach(a, b, q1, q2) == Reach(a, b, p1, p2) && nofEquals == Run(a, b, p1, p2)
  {
    q1, q2, nofEquals := p1, p2, 0;
    while q1 != |a| && q2 != |b| && a[q1] == b[q2]
      invariant EqualRun(a, b, p1, p2, nofEquals) && q1 == p1 + nofEquals && q2 == p2 + nofEquals
      invariant Reach(a, b, q1, q2) == Reach(a, b, p1, p2)
      decreases |a| - q1
    {
      RunGrows(a, b, p1, p2, nofEquals);
      q1, q2, nofEquals := q1 + 1, q2 + 1, nofEquals + 1;
    }
  }

  /** The number of equal characters just before (p1, p2). */
  method CountBack(a: Line, b: Line, p1: int, p2: int) returns (nofUnmatched: int)
    requires 0 <= p1 <= |a| && 0 <= p2 <= |b|
    ensures 0 <= nofUnmatched <= p1 && nofUnmatched <= p2
    ensures NoBack(a, b, p1 - nofUnmatched, p2 - nofUnmatched) && nofUnmatched == BackRun(a, b, p1, p2)
    ensures forall i :: 0 < i <= nofUnmatched ==> SameBack(a, b, p1, p2, i)
    ensures Reach(a, b, p1 - nofUnmatched, p2 - nofUnmatched) == Reach(a, b, p1, p2)
  {
    nofUnmatched := 0;
    var pu1, pu2 := p1 - 1, p2 - 1;
    while pu1 >= 0 && pu2 >= 0 && a[pu1] == b[pu2]
      invariant 0 <= nofUnmatched && pu1 == p1 - 1 - nofUnmatched >= -1 && pu2 == p2 - 1 - nofUnmatched >= -1
      invariant forall i :: 0 < i <= nofUnmatched ==> SameBack(a, b, p1, p2, i)
      invariant nofUnmatched + BackRun(a, b, pu1 + 1, pu2 + 1) == BackRun(a, b, p1, p2)
      invariant Reach(a, b, pu1 + 1, pu2 + 1) == Reach(a, b, p1, p2)
      decreases pu1
    {
      nofUnmatched := nofUnmatched + 1;
      pu1, pu2 := pu1 - 1, pu2 - 1;
    }
  }

  /** How many characters before (p1, p2) are equal. */
  ghost function BackRun(a: Line, b: Line, p1: int, p2: int): (n: int)
    ensures 0 <= n
    decreases p1
  {
    if 0 < p1 <= |a| && 0 < p2 <= |b| && a[p1 - 1] == b[p2 - 1] then 1 + BackRun(a, b, p1 - 1, p2 - 1) else 0
  }

  /** The i-th characters before (p1, p2) are equal. */
  ghost predicate SameBack(a: Line, b: Line, p1: int, p2: int, i: int) {
    0 <= p1 - i < |a| && 0 <= p2 - i < |b| && a[p1 - i] == b[p2 - i]
  }

  // ----- the search for the next match

  /** Two equal characters that are nearly opposite each other or followed by the same. */
  predicate StrictMatch(a: Line, b: Line, p1: int, p2: int, i1: int, i2: int)
    requires 0 <= p1 && 0 <= p2
  {
    && 0 <= i1 && p1 + i1 < |a| && 0 <= i2 && p2 + i2 < |b|
    && a[p1 + i1] == b[p2 + i2]
    && (-3 < i1 - i2 < 3
        || (p2 + i2 + 1 == |b| && p1 + i1 + 1 == |a|)
        || (p2 + i2 + 1 != |b| && p1 + i1 + 1 != |a| && b[p2 + i2 + 1] == a[p1 + i1 + 1]))
  }

  lemma StrictIs(a: Line, b: Line, p1: int, p2: int, i1: int, i2: int, strict: bool)
    requires 0 <= p1 && 0 <= p2 && 0 <= i1 && p1 + i1 < |a| && 0 <= i2 && p2 + i2 < |b|
    requires strict <==> b[p2 + i2] == a[p1 + i1]
                         && (-3 < i1 - i2 < 3 || (p2 + i2 + 1 == |b| && p1 + i1 + 1 == |a|)
                             || (p2 + i2 + 1 != |b| && p1 + i1 + 1 != |a| && b[p2 + i2 + 1] == a[p1 + i1 + 1]))
    ensures strict <==> StrictMatch(a, b, p1, p2, i1, i2)
  {
  }

  /** No strict match within the search range has a smaller sum of distances. */
  ghost predicate NoneNearer(a: Line, b: Line, p1: int, p2: int, maxSearchRange: int, upTo: int, valid: bool, best: int)
    requires 0 <= p1 && 0 <= p2
  {
    forall i1, i2 :: StrictMatch(a, b, p1, p2, i1, i2) && i1 < upTo && i2 < maxSearchRange ==> valid && best <= i1 + i2
  }

  /** No strict match with a smaller distance in the first line is as near. */
  ghost predicate FirstOfAll(a: Line, b: Line, p1: int, p2: int, maxSearchRange: int, i1: int, i2: int)
    requires 0 <= p1 && 0 <= p2
  {
    forall j1, j2 :: StrictMatch(a, b, p1, p2, j1, j2) && j1 < i1 && j2 < maxSearchRange ==> i1 + i2 < j1 + j2
  }

  /** The nearest strict match, if there is one in the search range. */
  method FindMatch(a: Line, b: Line, p1: int, p2: int, maxSearchRange: int)
    returns (valid: bool, bestI1: int, bestI2: int)
    requires 0 <= p1 <= |a| && 0 <= p2 <= |b|
    ensures valid ==> StrictMatch(a, b, p1, p2, bestI1, bestI2) && bestI2 < maxSearchRange
    ensures NoneNearer(a, b, p1, p2, maxSearchRange, |a| - p1, valid, bestI1 + bestI2)
    ensures valid ==> FirstOfAll(a, b, p1, p2, maxSearchRange, bestI1, bestI2)
  {
    hide StrictMatch;
    valid, bestI1, bestI2 := false, 0, 0;
    var i1 := 0;
    Inside(a, b, p1, p2);
    while !(p1 + i1 == |a| || (valid && i1 >= bestI1 + bestI2))
      invariant 0 <= i1 && p1 + i1 <= |a|
      invariant valid ==> StrictMatch(a, b, p1, p2, bestI1, bestI2) && bestI2 < maxSearchRange
      invariant NoneNearer(a, b, p1, p2, maxSearchRange, i1, valid, bestI1 + bestI2)
      invariant valid ==> FirstOfAll(a, b, p1, p2, maxSearchRange, bestI1, bestI2)
      decreases |a| - p1 - i1
    {
      var i2 := 0;
      while i2 < maxSearchRange
        invariant 0 <= i2 && p2 + i2 <= |b|
        invariant forall j :: 0 <= j < i2 ==> !StrictMatch(a, b, p1, p2, i1, j)
        decreases maxSearchRange - i2
      {
        if p2 + i2 == |b| || (valid && i1 + i2 >= bestI1 + bestI2) {
          break;
        }
        var strict := b[p2 + i2] == a[p1 + i1]
                      && (-3 < i1 - i2 < 3 || (p2 + i2 + 1 == |b| && p1 + i1 + 1 == |a|)
                          || (p2 + i2 + 1 != |b| && p1 + i1 + 1 != |a| && b[p2 + i2 + 1] == a[p1 + i1 + 1]));
        StrictIs(a, b, p1, p2, i1, i2, strict);
        if strict {
          if i1 + i2 < bestI1 + bestI2 || !valid {
            bestI1, bestI2, valid := i1, i2, true;
            break;
          }
        }
        i2 := i2 + 1;
      }
      i1 := i1 + 1;
    }
  }

  lemma Inside(a: Line, b: Line, p1: int, p2: int)
    requires 0 <= p1 <= |a| && 0 <= p2 <= |b|
    ensures forall i1, i2 :: StrictMatch(a, b, p1, p2, i1, i2) ==> 0 <= i1 < |a| - p1 && 0 <= i2 < |b| - p2
  {
  }

  /** The first of the equal characters that end in a match, as far as they lie behind (p1, p2). */
  ghost function BackOver(a: Line, b: Line, p1: int, p2: int, i1: int, i2: int): (int, int)
    decreases i1
  {
    if 1 <= i1 && 1 <= i2 && 0 < p1 + i1 <= |a| && 0 < p2 + i2 <= |b| && a[p1 + i1 - 1] == b[p2 + i2 - 1]
    then BackOver(a, b, p1, p2, i1 - 1, i2 - 1)
    else (i1, i2)
  }

  /** Goes back over equal characters before the match. */
  method GoBack(a: Line, b: Line, p1: int, p2: int, i1: int, i2: int) returns (bestI1: int, bestI2: int)
    requires 0 <= p1 && 0 <= p2 && 0 <= i1 && p1 + i1 < |a| && 0 <= i2 && p2 + i2 < |b| && a[p1 + i1] == b[p2 + i2]
    ensures 0 <= bestI1 <= i1 && 0 <= bestI2 <= i2 && a[p1 + bestI1] == b[p2 + bestI2]
    ensures bestI1 == 0 || bestI2 == 0 || a[p1 + bestI1 - 1] != b[p2 + bestI2 - 1]
    ensures (bestI1, bestI2) == BackOver(a, b, p1, p2, i1, i2)
  {
    bestI1, bestI2 := i1, i2;
    while bestI1 >= 1 && bestI2 >= 1 && a[p1 + bestI1 - 1] == b[p2 + bestI2 - 1]
      invariant 0 <= bestI1 <= i1 && 0 <= bestI2 <= i2 && a[p1 + bestI1] == b[p2 + bestI2]
      invariant BackOver(a, b, p1, p2, bestI1, bestI2) == BackOver(a, b, p1, p2, i1, i2)
    {
      bestI1, bestI2 := bestI1 - 1, bestI2 - 1;
    }
  }

  // ----- the algorithm as a function

  /** The match that is nearest, and of those the one nearest in the first line. */
  ghost predicate Nearest(a: Line, b: Line, p1: int, p2: int, maxSearchRange: int, m: (int, int))
    requires 0 <= p1 && 0 <= p2
  {
    && StrictMatch(a, b, p1, p2, m.0, m.1) && m.1 < maxSearchRange
    && NoneNearer(a, b, p1, p2, maxSearchRange, |a| - p1, true, m.0 + m.1)
    && FirstOfAll(a, b, p1, p2, maxSearchRange, m.0, m.1)
  }

  /** There is only one. */
  lemma OnlyOneNearest(a: Line, b: Line, p1: int, p2: int, maxSearchRange: int, m: (int, int), n: (int, int))
    requires 0 <= p1 && 0 <= p2 && Nearest(a, b, p1, p2, maxSearchRange, m) && Nearest(a, b, p1, p2, maxSearchRange, n)
    ensures m == n
  {
  }

  ghost function MatchFrom(a: Line, b: Line, p1: int, p2: int, maxSearchRange: int): Option<(int, int)>
    requires 0 <= p1 && 0 <= p2
  {
    if exists m :: Nearest(a, b, p1, p2, maxSearchRange, m)
    then var m :| Nearest(a, b, p1, p2, maxSearchRange, m); Some(m)
    else None
  }

  /** What the search finds. */
  lemma MatchFound(a: Line, b: Line, p1: int, p2: int, maxSearchRange: int, valid: bool, i1: int, i2: int)
    requires 0 <= p1 <= |a| && 0 <= p2 <= |b|
    requires valid ==> StrictMatch(a, b, p1, p2, i1, i2) && i2 < maxSearchRange
                       && FirstOfAll(a, b, p1, p2, maxSearchRange, i1, i2)
    requires NoneNearer(a, b, p1, p2, maxSearchRange, |a| - p1, valid, i1 + i2)
    ensures MatchFrom(a, b, p1, p2, maxSearchRange) == if valid then Some((i1, i2)) else None
  {
    hide StrictMatch;
    Inside(a, b, p1, p2);
    if valid {
      assert Nearest(a, b, p1, p2, maxSearchRange, (i1, i2));
      var m :| Nearest(a, b, p1, p2, maxSearchRange, m) && MatchFrom(a, b, p1, p2, maxSearchRange) == Some(m);
      OnlyOneNearest(a, b, p1, p2, maxSearchRange, m, (i1, i2));
    }
  }

  /** The list so far, the position it has come to, and whether the end is reached. */
  datatype State = State(diffs: seq<Diff>, p1: int, p2: int, done: bool)

  /** The next entry, the position behind its differences, and whether nothing more matches. */
  ghost function Appended(a: Line, b: Line, s: State, maxSearchRange: int): (t: State)
    requires 0 <= s.p1 && 0 <= s.p2
    ensures |t.diffs| == |s.diffs| + 1 && 0 <= t.p1 && 0 <= t.p2
  {
    var n := Run(a, b, s.p1, s.p2);
    var q1, q2 := s.p1 + n, s.p2 + n;
    var m := MatchFrom(a, b, q1, q2, maxSearchRange);
    if m.None? then State(s.diffs + [Diff(n, |a| - q1, |b| - q2)], q1, q2, true)
    else
      var i := BackOver(a, b, q1, q2, m.value.0, m.value.1);
      BackOverInside(a, b, q1, q2, m.value.0, m.value.1);
      State(s.diffs + [Diff(n, i.0, i.1)], q1 + i.0, q2 + i.1, false)
  }

  lemma BackOverInside(a: Line, b: Line, p1: int, p2: int, i1: int, i2: int)
    requires 0 <= i1 && 0 <= i2
    ensures 0 <= BackOver(a, b, p1, p2, i1, i2).0 && 0 <= BackOver(a, b, p1, p2, i1, i2).1
    decreases i1
  {
  }

  /** What is left of an entry and the entries before it when u pairs of characters are taken off their end. */
  ghost function Undone(dl: seq<Diff>, d: Diff, u: int, end: bool): (seq<Diff>, Diff, bool)
    decreases u + |dl|
  {
    if u <= 0 then (dl, d, end)
    else
      var both := d.diff1 > 0 && d.diff2 > 0;
      var e := if both then d.(diff1 := d.diff1 - 1, diff2 := d.diff2 - 1)
               else if d.equals > 0 then d.(equals := d.equals - 1) else d;
      var v := if both || d.equals > 0 then u - 1 else u;
      if e.equals == 0 && (e.diff1 == 0 || e.diff2 == 0) && v > 0 && |dl| > 0 then
        var back := dl[|dl| - 1];
        Undone(dl[..|dl| - 1], Diff(e.equals + back.equals, e.diff1 + back.diff1, e.diff2 + back.diff2), v, false)
      else if v < u then Undone(dl, e, v, end)
      else (dl, e, end)
  }

  lemma UndoneNext(dl: seq<Diff>, d: Diff, u: int, end: bool)
    requires u > 0
    ensures var both := d.diff1 > 0 && d.diff2 > 0;
            var e := if both then d.(diff1 := d.diff1 - 1, diff2 := d.diff2 - 1)
                     else if d.equals > 0 then d.(equals := d.equals - 1) else d;
            var v := if both || d.equals > 0 then u - 1 else u;
            Undone(dl, d, u, end) ==
              if e.equals == 0 && (e.diff1 == 0 || e.diff2 == 0) && v > 0 && |dl| > 0 then
                Undone(dl[..|dl| - 1], Diff(e.equals + dl[|dl| - 1].equals, e.diff1 + dl[|dl| - 1].diff1,
                                            e.diff2 + dl[|dl| - 1].diff2), v, false)
              else if v < u then Undone(dl, e, v, end) else (dl, e, end)
    ensures Undone(dl, d, 0, end) == (dl, d, end)
  {
  }

  /** One pass of the loop. */
  ghost function NextState(a: Line, b: Line, s: State, maxSearchRange: int): State {
    if s.done || s.p1 < 0 || s.p2 < 0 then s
    else
      var t := Appended(a, b, s, maxSearchRange);
      var u := BackRun(a, b, t.p1, t.p2);
      if u == 0 then t
      else
        var d := t.diffs[|t.diffs| - 1];
        var (dl, e, end) := Undone(t.diffs[..|t.diffs| - 1], d, u, t.done);
        if end then State(dl + [d], t.p1, t.p2, true) else State(dl + [e], t.p1 - u, t.p2 - u, false)
  }

  ghost function StateAfter(a: Line, b: Line, maxSearchRange: int, n: nat): State {
    if n == 0 then State([], 0, 0, false) else NextState(a, b, StateAfter(a, b, maxSearchRange, n - 1), maxSearchRange)
  }

  lemma NothingYet(a: Line, b: Line, maxSearchRange: int)
    ensures StateAfter(a, b, maxSearchRange, 0) == State([], 0, 0, false)
    ensures forall cap :: GoesOn(a, b, maxSearchRange, cap, 0)
  {
  }

  /** A pass that leaves nothing equal just behind it, and one that does. */
  lemma NextIs(a: Line, b: Line, maxSearchRange: int, n: nat, s: State, t: State)
    requires StateAfter(a, b, maxSearchRange, n) == s && !s.done && 0 <= s.p1 && 0 <= s.p2
    requires t == Appended(a, b, s, maxSearchRange)
    ensures var u := BackRun(a, b, t.p1, t.p2);
            var d := t.diffs[|t.diffs| - 1];
            var (dl, e, end) := Undone(t.diffs[..|t.diffs| - 1], d, u, t.done);
            StateAfter(a, b, maxSearchRange, n + 1)
              == if u == 0 then t
                 else if end then State(dl + [d], t.p1, t.p2, true)
                 else State(dl + [e], t.p1 - u, t.p2 - u, false)
  {
    hide Appended, Undone, BackRun;
  }

  /** The loop ends after n passes, because it is done or because the list has reached its greatest length. */
  ghost predicate EndsAfter(a: Line, b: Line, maxSearchRange: int, cap: int, n: nat, diffs: seq<Diff>, complete: bool) {
    var s := StateAfter(a, b, maxSearchRange, n);
    && s.diffs == diffs && s.done == complete && (complete || |diffs| >= cap) && GoesOn(a, b, maxSearchRange, cap, n)
  }

  /** No earlier pass was the last one. */
  ghost predicate GoesOn(a: Line, b: Line, maxSearchRange: int, cap: int, n: nat) {
    forall m: nat {:trigger StateAfter(a, b, maxSearchRange, m)} :: m < n ==>
      !StateAfter(a, b, maxSearchRange, m).done && |StateAfter(a, b, maxSearchRange, m).diffs| < cap
  }

  lemma GoesOnNext(a: Line, b: Line, maxSearchRange: int, cap: int, n: nat)
    requires GoesOn(a, b, maxSearchRange, cap, n)
    requires !StateAfter(a, b, maxSearchRange, n).done && |StateAfter(a, b, maxSearchRange, n).diffs| < cap
    ensures GoesOn(a, b, maxSearchRange, cap, n + 1)
  {
    hide StateAfter;
  }

  // ----- the list

  /** If some equal run is long, at most the first entry is refined, and otherwise every entry is. */
  ghost predicate Optimized(before: seq<Diff>, after: seq<Diff>) {
    var useful := exists k :: 0 <= k < |before| && before[k].equals >= 4;
    && |after| == |before|
    && forall k :: 0 <= k < |after| ==> after[k] == if useful && k > 0 then before[k] else before[k].Refine()
  }

  /**
    Then no long run is dissolved; and every entry, or the first one if there is a long run, has either equal
    characters or differences that are worth showing.
   */
  lemma OptimizedShows(before: seq<Diff>, after: seq<Diff>)
    requires Optimized(before, after)
    ensures forall k :: 0 <= k < |after| && before[k].equals >= 4 ==> after[k] == before[k]
    ensures forall k :: 0 <= k < |after| && 0 < after[k].equals < 4 && after[k].diff1 + after[k].diff2 > 0 ==>
              k > 0 && exists j :: 0 <= j < |before| && before[j].equals >= 4
  {
  }

  /** No entry up to the n-th one begins or ends behind characters that could still be matched. */
  ghost predicate Tight(dl: seq<Diff>, a: Line, b: Line, n: int) {
    n <= |dl| && forall k :: 0 <= k <= n ==> NoBackAt(dl, a, b, k)
  }

  ghost predicate NoBackAt(dl: seq<Diff>, a: Line, b: Line, k: int)
    requires 0 <= k <= |dl|
  {
    NoBack(a, b, Total1(dl[..k]), Total2(dl[..k]))
  }

  /** The last differences hold no strict match. */
  ghost predicate NothingMore(d: Diff, a: Line, b: Line, maxSearchRange: int) {
    && 0 <= d.diff1 <= |a| && 0 <= d.diff2 <= |b|
    && NoneNearer(a, b, |a| - d.diff1, |b| - d.diff2, maxSearchRange, d.diff1, false, 0)
  }

  lemma NoMatch(d: Diff, a: Line, b: Line, q1: int, q2: int, maxSearchRange: int, best: int)
    requires 0 <= q1 <= |a| && 0 <= q2 <= |b| && d.diff1 == |a| - q1 && d.diff2 == |b| - q2
    requires NoneNearer(a, b, q1, q2, maxSearchRange, |a| - q1, false, best)
    ensures NothingMore(d, a, b, maxSearchRange)
  {
  }

  lemma TightPrefix(dl: seq<Diff>, el: seq<Diff>, a: Line, b: Line, n: int)
    requires Tight(dl, a, b, |dl|) && n <= |dl| && n <= |el| && forall k :: 0 <= k < n ==> el[k] == dl[k]
    ensures Tight(el, a, b, n)
  {
    hide NoBack, Total1, Total2;
    forall k | 0 <= k <= n
      ensures NoBackAt(el, a, b, k)
    {
      assert NoBackAt(dl, a, b, k) && el[..k] == dl[..k];
    }
  }

  lemma TightEnd(dl: seq<Diff>, a: Line, b: Line, p1: int, p2: int)
    requires Tight(dl, a, b, |dl| - 1) && Covers(dl, a, b, 0, 0, p1, p2) && NoBack(a, b, p1, p2)
    ensures Tight(dl, a, b, |dl|)
  {
    hide NoBack, Covers, Total1, Total2;
    CoversTotals(dl, a, b, 0, 0, p1, p2);
    assert dl[..|dl|] == dl;
  }

  /** A list of differences that is built in place. */
  class DiffList {
    var diffs: seq<Diff>

    constructor ()
      ensures diffs == []
    {
      diffs := [];
    }

    /**
      Takes nofUnmatched pairs of characters off the end of the list: from differences as long as both
      sides have some, else from equal runs, joining entries that become too short.  The list never runs
      out, and the last entry of a finished list is not given up.
     */
    method Redo(a: Line, b: Line, u: int, end: bool, ghost e1: int, ghost e2: int) returns (d: Diff, bEndReached: bool)
      requires |diffs| > 0 && 0 < u <= e1 && u <= e2 && Covers(diffs, a, b, 0, 0, e1, e2)
      requires end ==> diffs[|diffs| - 1].equals >= u
      modifies this
      ensures bEndReached == end
      ensures end ==> diffs == old(diffs)[..|old(diffs)| - 1]
      ensures Covers(diffs + [d], a, b, 0, 0, e1 - u, e2 - u)
      ensures |diffs| < |old(diffs)| && diffs == old(diffs)[..|diffs|]
      ensures (diffs, d, bEndReached)
              == Undone(old(diffs)[..|old(diffs)| - 1], old(diffs)[|old(diffs)| - 1], u, end)
    {
      hide Covers, EqualRun, Undone;
      bEndReached := end;
      d := diffs[|diffs| - 1];
      ghost var s1, s2 := CoversLast(diffs, a, b, e1, e2);
      diffs := diffs[..|diffs| - 1];
      var nofUnmatched := u;
      while nofUnmatched > 0
        invariant 0 <= nofUnmatched <= u && 0 <= s1 && 0 <= s2 && |diffs| < |old(diffs)|
        invariant diffs == old(diffs)[..|diffs|]
        invariant Covers(diffs, a, b, 0, 0, s1, s2) && EqualRun(a, b, s1, s2, d.equals)
        invariant 0 <= d.equals && 0 <= d.diff1 && 0 <= d.diff2
        invariant s1 + d.equals + d.diff1 == e1 - u + nofUnmatched && s2 + d.equals + d.diff2 == e2 - u + nofUnmatched
        invariant bEndReached == end && (end ==> d.equals >= nofUnmatched && diffs == old(diffs)[..|old(diffs)| - 1])
        invariant Undone(diffs, d, nofUnmatched, bEndReached)
                  == Undone(old(diffs)[..|old(diffs)| - 1], old(diffs)[|old(diffs)| - 1], u, end)
        decreases nofUnmatched + |diffs|
      {
        UndoneNext(diffs, d, nofUnmatched, bEndReached);
        if d.diff1 > 0 && d.diff2 > 0 {
          d := d.(diff1 := d.diff1 - 1, diff2 := d.diff2 - 1);
          nofUnmatched := nofUnmatched - 1;
        } else if d.equals > 0 {
          RunShrinks(a, b, s1, s2, d.equals);
          d := d.(equals := d.equals - 1);
          nofUnmatched := nofUnmatched - 1;
        }
        if d.equals == 0 && (d.diff1 == 0 || d.diff2 == 0) && nofUnmatched > 0 {
          if |diffs| == 0 {
            CoversEmpty(diffs, a, b, s1, s2);
            assert false;
          }
          var back := diffs[|diffs| - 1];
          s1, s2 := CoversLast(diffs, a, b, s1, s2);
          d := Diff(d.equals + back.equals, d.diff1 + back.diff1, d.diff2 + back.diff2);
          diffs := diffs[..|diffs| - 1];
          bEndReached := false;
        }
      }
      UndoneNext(diffs, d, 1, bEndReached);
      CoversOne(d, a, b, s1, s2);
      CoversConcat(diffs, [d], a, b, 0, 0, s1, s2, e1 - u, e2 - u);
    }

    /**
      Appends one entry: the equal characters from (p1, p2) on and what lies between them and the next
      match, or the rest of both lines if nothing matches any more.
     */
    method NextEntry(a: Line, b: Line, p1: int, p2: int, maxSearchRange: int)
      returns (q1: int, q2: int, bEndReached: bool, ghost e1: int, ghost e2: int)
      requires Covers(diffs, a, b, 0, 0, p1, p2) && NoBack(a, b, p1, p2)
      modifies this
      ensures |diffs| == |old(diffs)| + 1 && diffs[..|old(diffs)|] == old(diffs)
      ensures Covers(diffs, a, b, 0, 0, e1, e2) && 0 <= q1 <= e1 <= |a| && 0 <= q2 <= e2 <= |b|
      ensures if bEndReached then e1 == |a| && e2 == |b|
              else e1 == q1 && e2 == q2 && Reach(a, b, q1, q2) >= Reach(a, b, p1, p2) + 3
      ensures bEndReached ==> NothingMore(diffs[|diffs| - 1], a, b, maxSearchRange)
      ensures bEndReached ==>
                var equals := diffs[|diffs| - 1].equals;
                EqualRun(a, b, p1, p2, equals) && q1 == p1 + equals && q2 == p2 + equals
      ensures State(diffs, q1, q2, bEndReached)
              == Appended(a, b, State(old(diffs), p1, p2, false), maxSearchRange)
    {
      hide Covers, EqualRun, StrictMatch, Run, NoneNearer, FirstOfAll, MatchFrom, BackOver;
      var nofEquals;
      q1, q2, nofEquals := FollowEquals(a, b, p1, p2);
      InsideRun(a, b, p1, p2, nofEquals);
      var bBestValid, bestI1, bestI2 := FindMatch(a, b, q1, q2, maxSearchRange);
      MatchFound(a, b, q1, q2, maxSearchRange, bBestValid, bestI1, bestI2);
      bEndReached := false;
      var d;
      if bBestValid {
        MatchMeans(a, b, q1, q2, bestI1, bestI2);
        bestI1, bestI2 := GoBack(a, b, q1, q2, bestI1, bestI2);
        d := Diff(nofEquals, bestI1, bestI2);
        Farther(a, b, q1, q2, bestI1, bestI2);
        q1, q2 := q1 + bestI1, q2 + bestI2;
        e1, e2 := q1, q2;
      } else {
        d := Diff(nofEquals, |a| - q1, |b| - q2);
        bEndReached := true;
        NoMatch(d, a, b, q1, q2, maxSearchRange, bestI1 + bestI2);
        e1, e2 := |a|, |b|;
      }
      CoversOne(d, a, b, p1, p2);
      CoversConcat(diffs, [d], a, b, 0, 0, p1, p2, e1, e2);
      diffs := diffs + [d];
    }

    /**
      The differences of two lines, found by the given number of passes.  The equal runs really are equal.
      The list reaches the ends of both lines unless it grows to `cap` entries, and short enough lines never
      make it grow that long.
     */
    method CalcDiff(a: Line, b: Line, maxSearchRange: int, cap: int)
      returns (ghost complete: bool, ghost q1: int, ghost q2: int, ghost rounds: nat)
      modifies this
      ensures EndsAfter(a, b, maxSearchRange, cap, rounds, diffs, complete)
      ensures Covers(diffs, a, b, 0, 0, q1, q2) && q1 <= |a| && q2 <= |b|
      ensures complete ==> q1 == |a| && q2 == |b|
      ensures !complete ==> |diffs| >= cap
      ensures |a| + |b| < 3 * cap ==> complete
      ensures Tight(diffs, a, b, if complete then |diffs| - 1 else |diffs|)
      ensures complete ==> |diffs| > 0 && NothingMore(diffs[|diffs| - 1], a, b, maxSearchRange)
    {
      hide Covers, EqualRun, Run, NoBack, Tight, NothingMore, Appended, Undone, BackRun, NextState, StateAfter, GoesOn;
      diffs := [];
      rounds := 0;
      NoEntries(a, b);
      var p1, p2 := 0, 0;
      NoBackAtStart(a, b);
      NothingYet(a, b, maxSearchRange);
      while |diffs| < cap
        invariant 0 <= p1 <= |a| && 0 <= p2 <= |b| && Covers(diffs, a, b, 0, 0, p1, p2)
        invariant Tight(diffs, a, b, |diffs|)
        invariant NoBack(a, b, p1, p2) && 3 * |diffs| <= Reach(a, b, p1, p2) <= |a| + |b|
        invariant StateAfter(a, b, maxSearchRange, rounds) == State(diffs, p1, p2, false)
        invariant GoesOn(a, b, maxSearchRange, cap, rounds)
        decreases |a| + |b| - Reach(a, b, p1, p2)
      {
        GoesOnNext(a, b, maxSearchRange, cap, rounds);
        rounds := rounds + 1;
        ghost var h1, h2, before := p1, p2, diffs;
        var bEndReached;
        ghost var e1, e2;
        p1, p2, bEndReached, e1, e2 := NextEntry(a, b, p1, p2, maxSearchRange);
        NextIs(a, b, maxSearchRange, rounds - 1, State(before, h1, h2, false), State(diffs, p1, p2, bEndReached));
        var nofUnmatched := CountBack(a, b, p1, p2);
        if nofUnmatched > 0 {
          ghost var full := diffs;
          var origBack := diffs[|diffs| - 1];
          if bEndReached {
            BackIsRun(a, b, h1, h2, origBack.equals, p1, p2, nofUnmatched);
          }
          var d;
          d, bEndReached := Redo(a, b, nofUnmatched, bEndReached, e1, e2);
          if bEndReached {
            diffs := diffs + [origBack];
            assert diffs == full;
          } else {
            p1, p2 := p1 - nofUnmatched, p2 - nofUnmatched;
            diffs := diffs + [d];
          }
        }
        if bEndReached {
          TightPrefix(before, diffs, a, b, |before|);
          return true, |a|, |b|, rounds;
        }
        ReachInside(a, b, p1, p2);
        TightPrefix(before, diffs, a, b, |diffs| - 1);
        TightEnd(diffs, a, b, p1, p2);
      }
      return false, p1, p2, rounds;
    }

    /**
      Makes the list fit for display: if no equal run is long, short equal runs are dissolved into the
      differences, otherwise only one at the very start.
     */
    method Optimize()
      modifies this
      ensures Optimized(old(diffs), diffs)
    {
      ghost var before := diffs;
      var bUsefulFineDiff := false;
      var k := 0;
      while k < |diffs|
        invariant 0 <= k <= |diffs| && diffs == before && !bUsefulFineDiff
        invariant forall j :: 0 <= j < k ==> before[j].equals < 4
      {
        if diffs[k].equals >= 4 {
          bUsefulFineDiff := true;
          break;
        }
        k := k + 1;
      }
      var index := 0;
      while index < |diffs|
        invariant 0 <= index <= |diffs| == |before|
        invariant forall j :: 0 <= j < |diffs| ==>
                    diffs[j] == if j < index && (!bUsefulFineDiff || j <= 0) then before[j].Refine() else before[j]
      {
        if !bUsefulFineDiff || index <= 0 {
          diffs := diffs[index := diffs[index].Refine()];
        }
        index := index + 1;
      }
    }
  }

  // ----- why the loop ends and what it keeps

  lemma NoEntries(a: Line, b: Line)
    ensures Covers([], a, b, 0, 0, 0, 0)
  {
  }

  lemma NoBackAtStart(a: Line, b: Line)
    ensures NoBack(a, b, 0, 0) && Tight([], a, b, 0) && 0 <= Reach(a, b, 0, 0) <= |a| + |b|
  {
    ReachInside(a, b, 0, 0);
  }

  lemma ReachInside(a: Line, b: Line, p1: int, p2: int)
    requires 0 <= p1 <= |a| && 0 <= p2 <= |b|
    ensures p1 + p2 <= Reach(a, b, p1, p2) <= |a| + |b|
  {
    RunStaysInside(a, b, p1, p2);
  }

  lemma InsideRun(a: Line, b: Line, p1: int, p2: int, n: int)
    requires EqualRun(a, b, p1, p2, n)
    ensures 0 <= n && 0 <= p1 && p1 + n <= |a| && 0 <= p2 && p2 + n <= |b|
  {
  }

  lemma MatchMeans(a: Line, b: Line, p1: int, p2: int, i1: int, i2: int)
    requires 0 <= p1 && 0 <= p2 && StrictMatch(a, b, p1, p2, i1, i2)
    ensures 0 <= i1 && p1 + i1 < |a| && 0 <= i2 && p2 + i2 < |b| && a[p1 + i1] == b[p2 + i2]
  {
  }

  /** Behind a match lies more than before it. */
  lemma Farther(a: Line, b: Line, p1: int, p2: int, i1: int, i2: int)
    requires 0 <= p1 && 0 <= p2 && Run(a, b, p1, p2) == 0
    requires 0 <= i1 && p1 + i1 < |a| && 0 <= i2 && p2 + i2 < |b| && a[p1 + i1] == b[p2 + i2]
    ensures Reach(a, b, p1 + i1, p2 + i2) >= Reach(a, b, p1, p2) + 3
  {
  }

  /** The last entry, and where it starts. */
  lemma CoversLast<T>(dl: seq<Diff>, a: seq<T>, b: seq<T>, e1: int, e2: int) returns (s1: int, s2: int)
    requires |dl| > 0 && Covers(dl, a, b, 0, 0, e1, e2)
    ensures var d := dl[|dl| - 1];
            && Covers(dl[..|dl| - 1], a, b, 0, 0, s1, s2) && EqualRun(a, b, s1, s2, d.equals)
            && 0 <= s1 && 0 <= s2 && 0 <= d.equals && 0 <= d.diff1 && 0 <= d.diff2
            && e1 == s1 + d.equals + d.diff1 && e2 == s2 + d.equals + d.diff2
  {
    s1, s2 := CoversLastFrom(dl, a, b, 0, 0, e1, e2);
  }

  lemma {:induction false} CoversLastFrom<T>(dl: seq<Diff>, a: seq<T>, b: seq<T>, p1: int, p2: int, e1: int, e2: int)
    returns (s1: int, s2: int)
    requires |dl| > 0 && Covers(dl, a, b, p1, p2, e1, e2)
    ensures var d := dl[|dl| - 1];
            && Covers(dl[..|dl| - 1], a, b, p1, p2, s1, s2) && EqualRun(a, b, s1, s2, d.equals)
            && 0 <= s1 && 0 <= s2 && 0 <= d.equals && 0 <= d.diff1 && 0 <= d.diff2
            && e1 == s1 + d.equals + d.diff1 && e2 == s2 + d.equals + d.diff2
    decreases |dl|
  {
    if |dl| == 1 {
      assert dl[1..] == [] && dl[..0] == [];
      s1, s2 := p1, p2;
    } else {
      s1, s2 := CoversLastFrom(dl[1..], a, b, p1 + dl[0].equals + dl[0].diff1, p2 + dl[0].equals + dl[0].diff2, e1, e2);
      assert dl[1..][..|dl| - 2] == dl[..|dl| - 1][1..];
    }
  }

  lemma CoversEmpty<T>(dl: seq<Diff>, a: seq<T>, b: seq<T>, s1: int, s2: int)
    requires |dl| == 0 && Covers(dl, a, b, 0, 0, s1, s2)
    ensures s1 == 0 && s2 == 0
  {
  }

  /** At the end of the lines the equal characters before the position are those just followed. */
  lemma BackIsRun(a: Line, b: Line, h1: int, h2: int, n: int, p1: int, p2: int, u: int)
    requires NoBack(a, b, h1, h2) && EqualRun(a, b, h1, h2, n) && p1 == h1 + n && p2 == h2 + n
    requires forall i :: 0 < i <= u ==> SameBack(a, b, p1, p2, i)
    ensures u <= n
  {
    assert !SameBack(a, b, p1, p2, n + 1);
  }

  // ----- optimizing keeps the coverage

  lemma RefineOne<T>(d: Diff, a: seq<T>, b: seq<T>, p1: int, p2: int)
    requires EqualRun(a, b, p1, p2, d.equals) && 0 <= d.diff1 && 0 <= d.diff2
    ensures EqualRun(a, b, p1, p2, d.Refine().equals) && 0 <= d.Refine().diff1 && 0 <= d.Refine().diff2
    ensures d.Refine().equals + d.Refine().diff1 == d.equals + d.diff1
    ensures d.Refine().equals + d.Refine().diff2 == d.equals + d.diff2
  {
  }

  /** Dissolving any of the runs leaves a list that covers the same. */
  lemma {:induction false} RefinedCovers<T>(dl: seq<Diff>, el: seq<Diff>, a: seq<T>, b: seq<T>, p1: int, p2: int,
                                            q1: int, q2: int)
    requires Covers(dl, a, b, p1, p2, q1, q2) && |el| == |dl|
    requires forall k :: 0 <= k < |dl| ==> el[k] == dl[k] || el[k] == dl[k].Refine()
    ensures Covers(el, a, b, p1, p2, q1, q2)
    decreases |dl|
  {
    hide EqualRun;
    if |dl| > 0 {
      RefineOne(dl[0], a, b, p1, p2);
      forall k | 0 <= k < |dl[1..]|
        ensures el[1..][k] == dl[1..][k] || el[1..][k] == dl[1..][k].Refine()
      {
        assert el[1..][k] == el[k + 1] && dl[1..][k] == dl[k + 1];
      }
      RefinedCovers(dl[1..], el[1..], a, b, p1 + dl[0].equals + dl[0].diff1, p2 + dl[0].equals + dl[0].diff2, q1, q2);
    }
  }
}
