/**
  The line differ as a whole (`diff_2_files`): discard, compare, slide, and read off the script.
 */
module DiffTwoFiles {
  import opened EditDistance
  import opened Alignment
  import opened FlagVector
  import opened CompareSeq
  import opened ProvisionalDiscards
  import opened DiscardLines
  import opened EditScript
  import ShiftBoundaries
  import Frontier

  /** A file as the differ sees it: one equivalence code per line, real classes starting at 1. */
  ghost predicate Codes(equivs: seq<int>, equivMax: nat) {
    forall i :: 0 <= i < |equivs| ==> 0 <= equivs[i] < equivMax
  }

  /** Discarded lines are marked, so the unmarked codes of the file are those of the lines that took part. */
  lemma {:induction false} KeptVirtual(e: seq<int>, c: seq<bool>, idx: seq<int>, picked: seq<int>, i: int, m: int)
    requires Flags(c, |e|) && RealIndexes(idx, |e|) && Picks(e, idx, picked)
    requires 0 <= i <= |e| && 0 <= m <= |idx|
    requires forall k :: 0 <= k < |e| && k !in idx ==> c[k + 1]
    requires forall k :: 0 <= k < |idx| ==> (k < m <==> idx[k] < i)
    ensures Kept(e[..i], c[1..i + 1]) == Kept(picked[..m], Virtual(c, idx)[..m])
    ensures Marked(c[1..i + 1]) == Marked(Virtual(c, idx)[..m]) + i - m
    decreases i
  {
    hide Kept, Marked;
    assert |idx| > 0 ==> 0 <= idx[0] && (0 < m <==> idx[0] < i);
    if i == 0 {
      assert e[..0] == [] && c[1..1] == [] && picked[..0] == [] && Virtual(c, idx)[..0] == [];
      NothingFlagged();
    } else {
      assert e[..i] == e[..i - 1] + [e[i - 1]] && c[1..i + 1] == c[1..i] + [c[i]];
      KeptConcat(e[..i - 1], [e[i - 1]], c[1..i], [c[i]]);
      MarkedConcat(c[1..i], [c[i]]);
      OneFlag(e[i - 1], c[i]);
      if m > 0 && idx[m - 1] == i - 1 {
        forall k | 0 <= k < |idx|
          ensures k < m - 1 <==> idx[k] < i - 1
        {
          assert k == m - 1 || idx[k] != idx[m - 1];
        }
        KeptVirtual(e, c, idx, picked, i - 1, m - 1);
        var v := Virtual(c, idx);
        assert v[m - 1] == c[i] && picked[m - 1] == e[i - 1];
        assert picked[..m] == picked[..m - 1] + [e[i - 1]] && v[..m] == v[..m - 1] + [c[i]];
        KeptConcat(picked[..m - 1], [e[i - 1]], v[..m - 1], [c[i]]);
        MarkedConcat(v[..m - 1], [c[i]]);
      } else {
        NotListed(idx, i, m);
        KeptVirtual(e, c, idx, picked, i - 1, m);
      }
    }
  }

  lemma NotListed(idx: seq<int>, i: int, m: int)
    requires 0 <= m <= |idx| && forall k :: 0 <= k < |idx| ==> (k < m <==> idx[k] < i)
    requires forall k, j :: 0 <= k < j < |idx| ==> idx[k] < idx[j]
    requires m > 0 ==> idx[m - 1] != i - 1
    ensures i - 1 !in idx && forall k :: 0 <= k < |idx| ==> (k < m <==> idx[k] < i - 1)
  {
    forall k | 0 <= k < |idx|
      ensures idx[k] != i - 1 && (k < m <==> idx[k] < i - 1)
    {
      if k < m - 1 {
        assert idx[k] < idx[m - 1] < i;
      }
    }
  }

  lemma NothingFlagged()
    ensures Kept<int>([], []) == [] && Marked([]) == 0
  {
  }

  lemma OneFlag(x: int, b: bool)
    ensures Kept([x], [b]) == (if b then [] else [x]) && Marked([b]) == (if b then 1 else 0)
  {
  }

  /** The whole file: unmarked codes and number of marks in terms of the lines that took part. */
  lemma WholeFile(e: seq<int>, c: seq<bool>, idx: seq<int>, picked: seq<int>)
    requires Flags(c, |e|) && RealIndexes(idx, |e|) && Picks(e, idx, picked)
    requires forall k :: 0 <= k < |e| && k !in idx ==> c[k + 1]
    ensures Kept(e, Body(c)) == Kept(picked, Virtual(c, idx))
    ensures Marked(Body(c)) == Marked(Virtual(c, idx)) + |e| - |idx|
  {
    KeptVirtual(e, c, idx, picked, |e|, |idx|);
    assert e[..|e|] == e && c[1..|e| + 1] == Body(c);
    assert picked[..|idx|] == picked && Virtual(c, idx)[..|idx|] == Virtual(c, idx);
  }

  /** Comparing only wrote flags of lines that take part. */
  lemma DiscardedStayMarked(before: seq<bool>, after: seq<bool>, idx: seq<int>)
    requires MarksAllBut(before, idx) && OnlyIn(before, after, idx, 0, |idx|)
    ensures forall k :: 0 <= k < |before| - 2 && k !in idx ==> after[k + 1]
    ensures RealIndexes(idx, |before| - 2) ==> after[0] == before[0] && after[|before| - 1] == before[|before| - 1]
  {
    assert idx[0..|idx|] == idx;
    forall k | 0 <= k < |before| - 2 && k !in idx
      ensures after[k + 1]
    {
      assert (k + 1) - 1 == k;
    }
  }

  lemma OthersMarked(changed: seq<bool>, idx: seq<int>)
    requires RealIndexes(idx, |changed| - 2) && MarksAllBut(changed, idx)
    ensures CompareSeq.NoneMarkedIn(changed, idx, 0, |idx|)
  {
    forall i | 0 <= i < |idx|
      ensures !Virtual(changed, idx)[i]
    {
      assert idx[i] in idx;
    }
  }

  /** The smallest power of two found by quartering n until nothing is left. */
  ghost function DoublingRoot(n: nat): (r: int)
    ensures r >= 1
    decreases n
  {
    if n == 0 then 1 else 2 * DoublingRoot(n / 4)
  }

  /** The limit for the effort of the search. */
  ghost function SearchLimit(diags: nat): (limit: int)
    ensures limit >= 256
  {
    Max(256, DoublingRoot(diags))
  }

  /** An upper bound for the effort of the search: roughly the square root of the input size, at least 256. */
  method TooExpensive(diags0: nat) returns (limit: int)
    ensures limit >= 256 && diags0 < limit * limit && (limit == 256 || limit * limit <= 4 * diags0)
    ensures limit == SearchLimit(diags0)
  {
    var diags := diags0;
    limit := 1;
    ghost var square := 1;
    while diags != 0
      invariant limit >= 1 && 0 <= diags && square == limit * limit >= 1
      invariant square * diags <= diags0 < square * (diags + 1)
      invariant limit == 1 || square <= 4 * diags0
      invariant DoublingRoot(diags0) == limit * DoublingRoot(diags)
    {
      Quarter(square, diags, diags0);
      Doubled(limit);
      Twice(limit, DoublingRoot(diags / 4));
      limit := limit * 2;
      square := 4 * square;
      diags := diags / 4;
    }
    if limit < 256 {
      assert limit * limit <= 256 * 256 by { Square(limit, 256); }
      limit := 256;
    }
  }

  lemma Twice(x: int, y: int)
    ensures x * (2 * y) == (x * 2) * y
  {
  }

  lemma Square(x: int, y: int)
    requires 0 <= x <= y
    ensures x * x <= y * y
  {
    assert x * x <= x * y <= y * y;
  }

  /** The lines that a script deletes and inserts. */
  ghost function Size(script: seq<Change>): int {
    if |script| == 0 then 0 else script[0].deleted + script[0].inserted + Size(script[1..])
  }

  lemma {:induction false} MarkedSplit(c: seq<bool>, i: int, j: int, k: int)
    requires 0 <= i <= j <= k < |c|
    ensures Marked(c[i + 1..k + 1]) == Marked(c[i + 1..j + 1]) + Marked(c[j + 1..k + 1])
  {
    MarkedJoin(c, i + 1, j + 1, k + 1);
  }

  /** A script changes exactly the marked lines. */
  lemma {:induction false} SizeIsMarked(e0: seq<int>, e1: seq<int>, c0: seq<bool>, c1: seq<bool>, s: seq<Change>,
                                        p0: int, p1: int)
    requires Flags(c0, |e0|) && Flags(c1, |e1|) && 0 <= p0 <= |e0| && 0 <= p1 <= |e1|
    requires Describes(e0, e1, c0, c1, s, p0, p1, |e0|, |e1|)
    ensures Size(s) == Marked(c0[p0 + 1..|e0| + 1]) + Marked(c1[p1 + 1..|e1| + 1])
    decreases |s|
  {
    hide Describes, Kept, Marked;
    if |s| == 0 {
      GapUnmarked(e0, e1, c0, c1, s, p0, p1);
    } else {
      DescribesHead(e0, e1, c0, c1, s, p0, p1, |e0|, |e1|);
      var h := s[0];
      HunkInside(c0, c1, h);
      SizeIsMarked(e0, e1, c0, c1, s[1..], h.line0 + h.deleted, h.line1 + h.inserted);
      GapThenRun(e0, c0, p0, h.line0, h.line0 + h.deleted);
      GapThenRun(e1, c1, p1, h.line1, h.line1 + h.inserted);
    }
  }

  lemma GapUnmarked(e0: seq<int>, e1: seq<int>, c0: seq<bool>, c1: seq<bool>, s: seq<Change>, p0: int, p1: int)
    requires Flags(c0, |e0|) && Flags(c1, |e1|) && 0 <= p0 <= |e0| && 0 <= p1 <= |e1|
    requires |s| == 0 && Describes(e0, e1, c0, c1, s, p0, p1, |e0|, |e1|)
    ensures Marked(c0[p0 + 1..|e0| + 1]) == 0 == Marked(c1[p1 + 1..|e1| + 1])
  {
    NoneMarked(e0[p0..], c0[p0 + 1..|e0| + 1]);
    NoneMarked(e1[p1..], c1[p1 + 1..|e1| + 1]);
  }

  lemma GapThenRun(e: seq<int>, c: seq<bool>, p: int, q: int, r: int)
    requires Flags(c, |e|) && 0 <= p <= q <= r <= |e|
    requires (forall k :: p < k <= q ==> !c[k]) && (forall k :: q < k <= r ==> c[k])
    ensures Marked(c[p + 1..|e| + 1]) == r - q + Marked(c[r + 1..|e| + 1])
  {
    MarkedSplit(c, p, q, |e|);
    MarkedSplit(c, q, r, |e|);
    NoneMarked(e[p..q], c[p + 1..q + 1]);
    AllMarked(e[q..r], c[q + 1..r + 1]);
  }

  // ----- how many lines are marked

  /** The codes of the lines that take part in the comparison; discarding decides which ones do. */
  ghost predicate TakePart(e0: seq<int>, e1: seq<int>, u0: seq<int>, u1: seq<int>, minimal: bool) {
    TakesPart(e0, e1, u0, minimal) && TakesPart(e1, e0, u1, minimal)
  }

  ghost predicate TakesPart(e: seq<int>, other: seq<int>, u: seq<int>, minimal: bool) {
    exists idx :: PartBy(e, other, u, idx, minimal)
  }

  ghost predicate PartBy(e: seq<int>, other: seq<int>, u: seq<int>, idx: seq<int>, minimal: bool) {
    RealIndexes(idx, |e|) && Picks(e, idx, u) && exists d :: Discarded(e, other, d, idx, minimal)
  }

  ghost function EffortFor(u0: seq<int>, u1: seq<int>, minimal: bool, speedLargeFiles: bool): Effort {
    Effort(minimal, speedLargeFiles, SearchLimit(|u0| + |u1| + 3))
  }

  /**
    The discarded lines are marked, and of the lines that take part no more than their distance demands, as
    long as the heuristics stay out of play.
   */
  ghost predicate Economical(e0: seq<int>, e1: seq<int>, marks: int, minimal: bool, speedLargeFiles: bool) {
    exists u0, u1 :: TakePart(e0, e1, u0, u1, minimal) && EconomicalFor(e0, e1, u0, u1, marks, minimal, speedLargeFiles)
  }

  ghost predicate EconomicalFor(e0: seq<int>, e1: seq<int>, u0: seq<int>, u1: seq<int>, marks: int, minimal: bool,
                                speedLargeFiles: bool) {
    Exactly(u0, u1, 0, |u0|, 0, |u1|, EffortFor(u0, u1, minimal, speedLargeFiles)) ==>
      marks == |e0| - |u0| + |e1| - |u1| + Dist(u0, u1, 0, |u0|, 0, |u1|)
  }

  /** With `minimal`, and for equal files, all lines take part, and the number of marks is the distance. */
  lemma EconomicalIsMinimal(e0: seq<int>, e1: seq<int>, marks: int, minimal: bool, speedLargeFiles: bool)
    requires Economical(e0, e1, marks, minimal, speedLargeFiles) && (minimal || e0 == e1)
    ensures marks == Dist(e0, e1, 0, |e0|, 0, |e1|)
  {
    hide Dist, Discarded, Picks, RealIndexes;
    var u0, u1 :| TakePart(e0, e1, u0, u1, minimal) && EconomicalFor(e0, e1, u0, u1, marks, minimal, speedLargeFiles);
    AllOfIt(e0, e1, u0, minimal);
    AllOfIt(e1, e0, u1, minimal);
    if e0 == e1 {
      assert u0[0..|u0|] == u1[0..|u1|];
      MatchesCostNothing(u0, u1, 0, |u0|, 0, |u1|);
    }
  }

  lemma AllOfIt(e: seq<int>, other: seq<int>, u: seq<int>, minimal: bool)
    requires TakesPart(e, other, u, minimal) && (minimal || e == other)
    ensures u == e
  {
    hide Discarded;
    var idx :| PartBy(e, other, u, idx, minimal);
    var d :| Discarded(e, other, d, idx, minimal);
    MinimalKeepsAll(e, other, d, idx, minimal);
    if e == other {
      EqualFilesKeepAll(e, d, idx, minimal);
    }
    AllTakePart(idx, |e|);
  }

  lemma MinimalKeepsAll(equivs: seq<int>, other: seq<int>, discards: seq<int>, idx: seq<int>, minimal: bool)
    requires Discarded(equivs, other, discards, idx, minimal)
    ensures minimal ==> forall k :: 0 <= k < |equivs| ==> k in idx
  {
  }

  /** Between equal files nothing is discarded: no line is without match, so no run of discards begins. */
  lemma EqualFilesKeepAll(equivs: seq<int>, discards: seq<int>, idx: seq<int>, minimal: bool)
    requires Discarded(equivs, equivs, discards, idx, minimal)
    ensures forall k :: 0 <= k < |equivs| ==> k in idx
  {
    forall k | 0 <= k < |equivs|
      ensures discards[k] != 1
    {
      CountsItself(equivs, k);
    }
    NoRunBegins(discards);
  }

  lemma {:induction false} CountsItself(equivs: seq<int>, k: int)
    requires 0 <= k < |equivs|
    ensures Count(equivs, equivs[k]) > 0
    decreases |equivs|
  {
    var last := |equivs| - 1;
    if k < last {
      CountsItself(equivs[..last], k);
    }
  }

  lemma NoRunBegins(d: seq<int>)
    requires ThreeValued(d) && Guarded(d, 0, |d|) && forall k :: 0 <= k < |d| ==> d[k] != 1
    ensures forall k :: 0 <= k < |d| ==> d[k] == 0
  {
    forall k | 0 <= k < |d|
      ensures d[k] == 0
    {
      if d[k] != 0 {
        var s, t := RunAround(d, k);
        RunsEndNonprovisional(d, s, t);
      }
    }
  }

  /** The maximal run of discarded lines around line k. */
  lemma RunAround(d: seq<int>, k: int) returns (s: int, t: int)
    requires 0 <= k < |d| && d[k] != 0
    ensures 0 <= s <= k < t <= |d| && forall i :: s <= i < t ==> d[i] != 0
    ensures (s == 0 || d[s - 1] == 0) && (t == |d| || d[t] == 0)
  {
    s, t := k, k + 1;
    while s > 0 && d[s - 1] != 0
      invariant 0 <= s <= k && forall i :: s <= i < t ==> d[i] != 0
    {
      s := s - 1;
    }
    while t < |d| && d[t] != 0
      invariant k < t <= |d| && forall i :: s <= i < t ==> d[i] != 0
    {
      t := t + 1;
    }
  }

  /** The lines that take part and their numbers, and the flags after the comparison, before any run slides. */
  datatype Stages = Stages(u0: seq<int>, u1: seq<int>, idx0: seq<int>, idx1: seq<int>, b0: seq<bool>, b1: seq<bool>)

  /** The lines that take part were compared by dividing at proposed points; the others are marked. */
  ghost predicate ComparedBy(g: Stages, e0: seq<int>, e1: seq<int>, minimal: bool, speedLargeFiles: bool) {
    && PartBy(e0, e1, g.u0, g.idx0, minimal) && PartBy(e1, e0, g.u1, g.idx1, minimal)
    && Flags(g.b0, |e0|) && Flags(g.b1, |e1|) && OthersStay(g.b0, g.idx0) && OthersStay(g.b1, g.idx1)
    && Traced(g.u0, g.u1, Virtual(g.b0, g.idx0), Virtual(g.b1, g.idx1), 0, |g.u0|, 0, |g.u1|,
              EffortFor(g.u0, g.u1, minimal, speedLargeFiles))
  }

  ghost predicate OthersStay(c: seq<bool>, idx: seq<int>) {
    forall k :: 0 <= k < |c| - 2 && k !in idx ==> c[k + 1]
  }

  /** Then every run slid to the place where it is settled. */
  ghost predicate SlidFrom(g: Stages, e0: seq<int>, e1: seq<int>, c0: seq<bool>, c1: seq<bool>) {
    && Flags(g.b0, |e0|) && Flags(c0, |e0|) && Flags(c1, |e1|) && Kept(e0, Body(c0)) == Kept(e0, Body(g.b0))
    && ShiftBoundaries.AllSettled(e0, c0, g.b1, |e0| + 1) && ShiftBoundaries.AllSettled(e1, c1, c0, |e1| + 1)
  }

  /** The flags are those that discarding, comparing and sliding leave. */
  ghost predicate Differed(e0: seq<int>, e1: seq<int>, c0: seq<bool>, c1: seq<bool>, minimal: bool,
                           speedLargeFiles: bool) {
    exists g :: ComparedBy(g, e0, e1, minimal, speedLargeFiles) && SlidFrom(g, e0, e1, c0, c1)
  }

  /** The flags that discarding, comparing and sliding leave behind. */
  method MarkChanges(equivs0: seq<int>, equivs1: seq<int>, equivMax: nat, minimal: bool, speedLargeFiles: bool)
    returns (changed0: array<bool>, changed1: array<bool>)
    requires Codes(equivs0, equivMax) && Codes(equivs1, equivMax)
    requires |equivs0| + |equivs1| < Frontier.GNULINEREF_MAX
    ensures fresh(changed0) && fresh(changed1) && changed0 != changed1
    ensures Flags(changed0[..], |equivs0|) && Flags(changed1[..], |equivs1|)
    ensures Aligned(equivs0, equivs1, Body(changed0[..]), Body(changed1[..]))
    ensures Economical(equivs0, equivs1, Marked(Body(changed0[..])) + Marked(Body(changed1[..])), minimal,
                       speedLargeFiles)
    ensures Differed(equivs0, equivs1, changed0[..], changed1[..], minimal, speedLargeFiles)
    ensures minimal || equivs0 == equivs1 ==>
              Marked(Body(changed0[..])) + Marked(Body(changed1[..]))
                == Dist(equivs0, equivs1, 0, |equivs0|, 0, |equivs1|)
  {
    hide Dist, Kept, Marked, Discarded, RealIndexes, Picks, MarksAllBut, EconomicalFor, Traced, Virtual, OthersStay,
         ShiftBoundaries.AllSettled;
    changed0 := new bool[|equivs0| + 2](_ => false);
    changed1 := new bool[|equivs1| + 2](_ => false);
    var undiscarded0, real0, undiscarded1, real1, discards0, discards1 :=
      DiscardConfusingLines(equivs0, equivs1, equivMax, changed0, changed1, minimal);
    assert PartBy(equivs0, equivs1, undiscarded0, real0, minimal);
    assert PartBy(equivs1, equivs0, undiscarded1, real1, minimal);
    Compare(equivs0, equivs1, undiscarded0, undiscarded1, real0, real1, changed0, changed1, minimal, speedLargeFiles);
    ghost var g := Stages(undiscarded0, undiscarded1, real0, real1, changed0[..], changed1[..]);
    assert ComparedBy(g, equivs0, equivs1, minimal, speedLargeFiles);
    ShiftBoundaries.ShiftBoundaries(equivs0, equivs1, changed0, changed1);
    assert SlidFrom(g, equivs0, equivs1, changed0[..], changed1[..]);
    ghost var marks := Marked(Body(changed0[..])) + Marked(Body(changed1[..]));
    if minimal || equivs0 == equivs1 {
      EconomicalIsMinimal(equivs0, equivs1, marks, minimal, speedLargeFiles);
    }
  }

  /** The main comparison on the undiscarded lines, seen from the whole files. */
  method Compare(equivs0: seq<int>, equivs1: seq<int>, undiscarded0: seq<int>, undiscarded1: seq<int>, real0: seq<int>,
                 real1: seq<int>, changed0: array<bool>, changed1: array<bool>, minimal: bool, speedLargeFiles: bool)
    requires changed0 != changed1 && |equivs0| + |equivs1| < Frontier.GNULINEREF_MAX
    requires Flags(changed0[..], |equivs0|) && RealIndexes(real0, |equivs0|) && Picks(equivs0, real0, undiscarded0)
    requires MarksAllBut(changed0[..], real0)
    requires Flags(changed1[..], |equivs1|) && RealIndexes(real1, |equivs1|) && Picks(equivs1, real1, undiscarded1)
    requires MarksAllBut(changed1[..], real1)
    modifies changed0, changed1
    ensures Flags(changed0[..], |equivs0|) && Flags(changed1[..], |equivs1|)
    ensures Aligned(equivs0, equivs1, Body(changed0[..]), Body(changed1[..]))
    ensures EconomicalFor(equivs0, equivs1, undiscarded0, undiscarded1,
                          Marked(Body(changed0[..])) + Marked(Body(changed1[..])), minimal, speedLargeFiles)
    ensures OthersStay(changed0[..], real0) && OthersStay(changed1[..], real1)
    ensures Traced(undiscarded0, undiscarded1, Virtual(changed0[..], real0), Virtual(changed1[..], real1),
                   0, |undiscarded0|, 0, |undiscarded1|,
                   EffortFor(undiscarded0, undiscarded1, minimal, speedLargeFiles))
  {
    hide Dist, Kept, Marked, Exactly, Compared, Traced, OnlyIn, Aligned, SearchLimit;
    ghost var before0, before1 := changed0[..], changed1[..];
    OthersMarked(before0, real0);
    OthersMarked(before1, real1);
    IndexesFit(real0, |equivs0|);
    IndexesFit(real1, |equivs1|);
    var diags := |undiscarded0| + |undiscarded1| + 3;
    var fdiag := new int[diags];
    var bdiag := new int[diags];
    var tooExpensive := TooExpensive(diags);
    CompareSeq.CompareSeq(undiscarded0, undiscarded1, real0, real1, changed0, changed1, fdiag, bdiag,
                          0, |undiscarded0|, 0, |undiscarded1|, minimal, speedLargeFiles, tooExpensive);
    ComparedIsAligned(equivs0, equivs1, undiscarded0, undiscarded1, real0, real1, before0, before1, changed0[..],
                      changed1[..],
                      Exactly(undiscarded0, undiscarded1, 0, |undiscarded0|, 0, |undiscarded1|,
                              EffortFor(undiscarded0, undiscarded1, minimal, speedLargeFiles)));
  }

  lemma {:induction false} IndexesFit(idx: seq<int>, n: int)
    requires RealIndexes(idx, n) && 0 <= n
    ensures |idx| <= n
    decreases n
  {
    if |idx| > 0 {
      assert 0 <= idx[0] < n;
      var m := |idx| - 1;
      var rest := idx[..m];
      forall i | 0 <= i < |rest|
        ensures 0 <= rest[i] < n - 1
      {
        assert idx[i] < idx[m];
      }
      IndexesFit(rest, n - 1);
    }
  }

  lemma ComparedIsAligned(e0: seq<int>, e1: seq<int>, u0: seq<int>, u1: seq<int>, idx0: seq<int>, idx1: seq<int>,
                          before0: seq<bool>, before1: seq<bool>, c0: seq<bool>, c1: seq<bool>, exact: bool)
    requires Flags(before0, |e0|) && RealIndexes(idx0, |e0|) && Picks(e0, idx0, u0) && MarksAllBut(before0, idx0)
    requires Flags(before1, |e1|) && RealIndexes(idx1, |e1|) && Picks(e1, idx1, u1) && MarksAllBut(before1, idx1)
    requires OnlyIn(before0, c0, idx0, 0, |idx0|) && OnlyIn(before1, c1, idx1, 0, |idx1|)
    requires Compared(u0, u1, Virtual(c0, idx0), Virtual(c1, idx1), 0, |u0|, 0, |u1|, exact)
    ensures Flags(c0, |e0|) && Flags(c1, |e1|) && Aligned(e0, e1, Body(c0), Body(c1))
    ensures OthersStay(c0, idx0) && OthersStay(c1, idx1)
    ensures exact ==>
              Marked(Body(c0)) + Marked(Body(c1)) == |e0| - |u0| + |e1| - |u1| + Dist(u0, u1, 0, |u0|, 0, |u1|)
  {
    hide Dist, Kept, Marked;
    DiscardedStayMarked(before0, c0, idx0);
    DiscardedStayMarked(before1, c1, idx1);
    WholeFile(e0, c0, idx0, u0);
    WholeFile(e1, c1, idx1, u1);
    var v0, v1 := Virtual(c0, idx0), Virtual(c1, idx1);
    assert u0[0..|u0|] == u0 && u1[0..|u1|] == u1 && v0[0..|u0|] == v0 && v1[0..|u1|] == v1;
  }

  /**
    The differ.  Its script turns file 0 into file 1; with `minimal` no valid alignment of the two
    files changes fewer lines.  Otherwise this is so for the lines that take part, as long as the heuristics
    stay out of play.  For equal files the script is empty in any case.
   */
  method Diff2Files(equivs0: seq<int>, equivs1: seq<int>, equivMax: nat, minimal: bool, speedLargeFiles: bool)
    returns (script: seq<Change>, ghost c0: seq<bool>, ghost c1: seq<bool>)
    requires Codes(equivs0, equivMax) && Codes(equivs1, equivMax)
    requires |equivs0| + |equivs1| < Frontier.GNULINEREF_MAX
    ensures InRange(script, 0, |equivs0|, |equivs1|) && Replay(equivs0, equivs1, script, 0) == equivs1
    ensures Flags(c0, |equivs0|) && Flags(c1, |equivs1|)
    ensures Describes(equivs0, equivs1, c0, c1, script, 0, 0, |equivs0|, |equivs1|)
    ensures Economical(equivs0, equivs1, Size(script), minimal, speedLargeFiles)
    ensures Differed(equivs0, equivs1, c0, c1, minimal, speedLargeFiles)
    ensures minimal || equivs0 == equivs1 ==> Size(script) == Dist(equivs0, equivs1, 0, |equivs0|, 0, |equivs1|)
  {
    hide Dist, Kept, Marked, Describes, Economical, Differed;
    var changed0, changed1 := MarkChanges(equivs0, equivs1, equivMax, minimal, speedLargeFiles);
    script := BuildScript(equivs0, equivs1, changed0, changed1);
    c0, c1 := changed0[..], changed1[..];
    ReplayYieldsFile1(equivs0, equivs1, c0, c1, script, 0, 0);
    SizeIsMarked(equivs0, equivs1, c0, c1, script, 0, 0);
    assert equivs1[0..] == equivs1 && c0[0 + 1..|equivs0| + 1] == Body(c0) && c1[0 + 1..|equivs1| + 1] == Body(c1);
  }

  /** A minimal script is no larger than the number of marks of any valid alignment. */
  lemma MinimalScript(e0: seq<int>, e1: seq<int>, script: seq<Change>, cx: seq<bool>, cy: seq<bool>)
    requires Size(script) == Dist(e0, e1, 0, |e0|, 0, |e1|) && Aligned(e0, e1, cx, cy)
    ensures Size(script) <= Marked(cx) + Marked(cy)
  {
    assert e0[0..] == e0 && e1[0..] == e1 && cx[0..] == cx && cy[0..] == cy;
    DistIsLowerBound(e0, e1, cx, cy, 0, 0);
  }

  /** Both scripts of two files: the one in reverse order is exactly the reversal of the one in forward order. */
  method BothScripts(equivs0: seq<int>, equivs1: seq<int>, equivMax: nat, minimal: bool, speedLargeFiles: bool)
    returns (forward: seq<Change>, reverse: seq<Change>)
    requires Codes(equivs0, equivMax) && Codes(equivs1, equivMax)
    requires |equivs0| + |equivs1| < Frontier.GNULINEREF_MAX
    ensures forward == Reversed(reverse)
    ensures InRange(forward, 0, |equivs0|, |equivs1|) && Replay(equivs0, equivs1, forward, 0) == equivs1
    ensures Economical(equivs0, equivs1, Size(forward), minimal, speedLargeFiles)
  {
    hide Dist, Kept, Marked, Describes, Economical, Differed;
    var changed0, changed1 := MarkChanges(equivs0, equivs1, equivMax, minimal, speedLargeFiles);
    forward := BuildScript(equivs0, equivs1, changed0, changed1);
    reverse := BuildReverseScript(equivs0, equivs1, changed0, changed1);
    ScriptUnique(equivs0, equivs1, changed0[..], changed1[..], forward, Reversed(reverse), 0, 0, |equivs0|, |equivs1|);
    ReplayYieldsFile1(equivs0, equivs1, changed0[..], changed1[..], forward, 0, 0);
    SizeIsMarked(equivs0, equivs1, changed0[..], changed1[..], forward, 0, 0);
    assert equivs1[0..] == equivs1;
    assert changed0[..][0 + 1..|equivs0| + 1] == Body(changed0[..]);
    assert changed1[..][0 + 1..|equivs1| + 1] == Body(changed1[..]);
  }
}
