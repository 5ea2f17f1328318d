/**
  Edit scripts: reading the flag vectors of two files as a list of changes (`build_script` and
  `build_reverse_script`).
 */
module EditScript {
  import opened Alignment
  import opened FlagVector

  /** `deleted` lines of file 0 from line0 on are replaced by `inserted` lines of file 1 from line1 on. */
  datatype Change = Change(line0: int, line1: int, deleted: int, inserted: int)

  /** A change covers a maximal run of marked lines in both files, at least one of them not empty. */
  ghost predicate Hunk(c0: seq<bool>, c1: seq<bool>, h: Change) {
    && 0 <= h.deleted && 0 <= h.inserted && 0 < h.deleted + h.inserted
    && MarkedRun(c0, h.line0, h.line0 + h.deleted) && MarkedRun(c1, h.line1, h.line1 + h.inserted)
  }

  /** The lines [s, t) are marked and the lines around them are not. */
  ghost predicate MarkedRun(c: seq<bool>, s: int, t: int) {
    0 <= s <= t && t + 1 < |c| && !c[s] && !c[t + 1] && forall k :: s < k <= t ==> c[k]
  }

  /** The lines [p0, q0) of file 0 and [p1, q1) of file 1 are unmarked and pairwise equal. */
  ghost predicate Gap(e0: seq<int>, e1: seq<int>, c0: seq<bool>, c1: seq<bool>, p0: int, q0: int, p1: int, q1: int)
    requires Flags(c0, |e0|) && Flags(c1, |e1|)
  {
    && 0 <= p0 <= q0 <= |e0| && 0 <= p1 <= q1 <= |e1|
    && e0[p0..q0] == e1[p1..q1]
    && (forall k :: p0 < k <= q0 ==> !c0[k])
    && (forall k :: p1 < k <= q1 ==> !c1[k])
  }

  /** The script tells the lines [p0, q0) and [p1, q1) apart completely: gaps of equal lines alternate with changes. */
  ghost predicate Describes(e0: seq<int>, e1: seq<int>, c0: seq<bool>, c1: seq<bool>, script: seq<Change>, p0: int,
                            p1: int, q0: int, q1: int)
    requires Flags(c0, |e0|) && Flags(c1, |e1|)
    decreases |script|
  {
    if |script| == 0 then Gap(e0, e1, c0, c1, p0, q0, p1, q1)
    else
      var h := script[0];
      && Hunk(c0, c1, h) && Gap(e0, e1, c0, c1, p0, h.line0, p1, h.line1)
      && Describes(e0, e1, c0, c1, script[1..], h.line0 + h.deleted, h.line1 + h.inserted, q0, q1)
  }

  /** Carrying out a script on file 0, taking the inserted lines from file 1. */
  ghost function Replay(e0: seq<int>, e1: seq<int>, script: seq<Change>, p0: int): seq<int>
    requires 0 <= p0 <= |e0| && InRange(script, p0, |e0|, |e1|)
    decreases |script|
  {
    if |script| == 0 then e0[p0..]
    else
      var h := script[0];
      e0[p0..h.line0] + e1[h.line1..h.line1 + h.inserted] + Replay(e0, e1, script[1..], h.line0 + h.deleted)
  }

  /** The changes are in order and within the files. */
  ghost predicate InRange(script: seq<Change>, p0: int, n0: int, n1: int)
    decreases |script|
  {
    |script| > 0 ==>
      var h := script[0];
      && p0 <= h.line0 && 0 <= h.deleted && h.line0 + h.deleted <= n0
      && 0 <= h.line1 && 0 <= h.inserted && h.line1 + h.inserted <= n1
      && InRange(script[1..], h.line0 + h.deleted, n0, n1)
  }

  /** Replaying a script that describes the two files turns file 0 into file 1. */
  lemma {:induction false} ReplayYieldsFile1(e0: seq<int>, e1: seq<int>, c0: seq<bool>, c1: seq<bool>,
                                             script: seq<Change>, p0: int, p1: int)
    requires Flags(c0, |e0|) && Flags(c1, |e1|) && 0 <= p0 <= |e0| && 0 <= p1 <= |e1|
    requires Describes(e0, e1, c0, c1, script, p0, p1, |e0|, |e1|)
    ensures InRange(script, p0, |e0|, |e1|) && Replay(e0, e1, script, p0) == e1[p1..]
    decreases |script|
  {
    hide Describes, Replay, InRange, Hunk;
    if |script| == 0 {
      ReplayRest(e0, e1, c0, c1, script, p0, p1);
    } else {
      var h := script[0];
      DescribesHead(e0, e1, c0, c1, script, p0, p1, |e0|, |e1|);
      HunkInside(c0, c1, h);
      ReplayYieldsFile1(e0, e1, c0, c1, script[1..], h.line0 + h.deleted, h.line1 + h.inserted);
      ReplayHead(e0, e1, script, p0);
      Reassemble(e1, p1, h.line1, h.line1 + h.inserted);
    }
  }

  lemma ReplayRest(e0: seq<int>, e1: seq<int>, c0: seq<bool>, c1: seq<bool>, script: seq<Change>, p0: int, p1: int)
    requires Flags(c0, |e0|) && Flags(c1, |e1|) && 0 <= p0 <= |e0| && 0 <= p1 <= |e1|
    requires |script| == 0 && Describes(e0, e1, c0, c1, script, p0, p1, |e0|, |e1|)
    ensures InRange(script, p0, |e0|, |e1|) && Replay(e0, e1, script, p0) == e1[p1..]
  {
    assert e0[p0..|e0|] == e0[p0..] && e1[p1..|e1|] == e1[p1..];
  }

  lemma DescribesHead(e0: seq<int>, e1: seq<int>, c0: seq<bool>, c1: seq<bool>, s: seq<Change>, p0: int, p1: int,
                      q0: int, q1: int)
    requires Flags(c0, |e0|) && Flags(c1, |e1|) && |s| > 0 && Describes(e0, e1, c0, c1, s, p0, p1, q0, q1)
    ensures Hunk(c0, c1, s[0]) && Gap(e0, e1, c0, c1, p0, s[0].line0, p1, s[0].line1)
    ensures Describes(e0, e1, c0, c1, s[1..], s[0].line0 + s[0].deleted, s[0].line1 + s[0].inserted, q0, q1)
  {
  }

  lemma ReplayHead(e0: seq<int>, e1: seq<int>, script: seq<Change>, p0: int)
    requires |script| > 0 && 0 <= p0 <= script[0].line0 && 0 <= script[0].deleted
    requires script[0].line0 + script[0].deleted <= |e0|
    requires 0 <= script[0].line1 && 0 <= script[0].inserted && script[0].line1 + script[0].inserted <= |e1|
    requires InRange(script[1..], script[0].line0 + script[0].deleted, |e0|, |e1|)
    ensures InRange(script, p0, |e0|, |e1|)
    ensures Replay(e0, e1, script, p0)
            == e0[p0..script[0].line0] + e1[script[0].line1..script[0].line1 + script[0].inserted]
                                          + Replay(e0, e1, script[1..], script[0].line0 + script[0].deleted)
  {
  }

  lemma HunkInside(c0: seq<bool>, c1: seq<bool>, h: Change)
    requires Hunk(c0, c1, h)
    ensures 0 <= h.deleted && 0 <= h.line0 && h.line0 + h.deleted <= |c0| - 2
    ensures 0 <= h.inserted && 0 <= h.line1 && h.line1 + h.inserted <= |c1| - 2
  {
  }

  lemma Reassemble(e: seq<int>, p: int, q: int, r: int)
    requires 0 <= p <= q <= r <= |e|
    ensures e[p..q] + e[q..r] + e[r..] == e[p..]
  {
  }

  /** A pair of flag vectors has only one script. */
  lemma {:induction false} ScriptUnique(e0: seq<int>, e1: seq<int>, c0: seq<bool>, c1: seq<bool>, s: seq<Change>,
                                        t: seq<Change>, p0: int, p1: int, q0: int, q1: int)
    requires Flags(c0, |e0|) && Flags(c1, |e1|)
    requires Describes(e0, e1, c0, c1, s, p0, p1, q0, q1) && Describes(e0, e1, c0, c1, t, p0, p1, q0, q1)
    requires q0 <= |e0| && q1 <= |e1|
    ensures s == t
    decreases |s|
  {
    hide Describes, Hunk, Gap;
    if |s| == 0 || |t| == 0 {
      OnlyOneEmpty(e0, e1, c0, c1, s, t, p0, p1, q0, q1);
    } else {
      DescribesHead(e0, e1, c0, c1, s, p0, p1, q0, q1);
      DescribesHead(e0, e1, c0, c1, t, p0, p1, q0, q1);
      HeadUnique(e0, e1, c0, c1, s[0], t[0], p0, p1);
      ScriptUnique(e0, e1, c0, c1, s[1..], t[1..], s[0].line0 + s[0].deleted, s[0].line1 + s[0].inserted, q0, q1);
      HeadAndTail(s, t);
    }
  }

  lemma HeadAndTail(s: seq<Change>, t: seq<Change>)
    requires |s| > 0 && |t| > 0 && s[0] == t[0] && s[1..] == t[1..]
    ensures s == t
  {
    assert s == [s[0]] + s[1..] && t == [t[0]] + t[1..];
  }

  lemma OnlyOneEmpty(e0: seq<int>, e1: seq<int>, c0: seq<bool>, c1: seq<bool>, s: seq<Change>, t: seq<Change>, p0: int,
                     p1: int, q0: int, q1: int)
    requires Flags(c0, |e0|) && Flags(c1, |e1|)
    requires Describes(e0, e1, c0, c1, s, p0, p1, q0, q1) && Describes(e0, e1, c0, c1, t, p0, p1, q0, q1)
    requires |s| == 0 || |t| == 0
    ensures s == t
  {
    var u := if |s| == 0 then t else s;
    if |u| > 0 {
      ScriptStaysInside(e0, e1, c0, c1, u, p0, p1, q0, q1);
      HunkHasMark(c0, c1, u[0]);
      assert false;
    }
  }

  /** After the same start, the first changes of two scripts coincide. */
  lemma HeadUnique(e0: seq<int>, e1: seq<int>, c0: seq<bool>, c1: seq<bool>, g: Change, h: Change, p0: int, p1: int)
    requires Flags(c0, |e0|) && Flags(c1, |e1|) && Hunk(c0, c1, g) && Hunk(c0, c1, h)
    requires Gap(e0, e1, c0, c1, p0, g.line0, p1, g.line1) && Gap(e0, e1, c0, c1, p0, h.line0, p1, h.line1)
    ensures g == h
  {
    assert |e0[p0..g.line0]| == |e1[p1..g.line1]| && |e0[p0..h.line0]| == |e1[p1..h.line1]|;
    HunkHasMark(c0, c1, g);
    HunkHasMark(c0, c1, h);
    RunUnique(c0, g.line0, g.line0 + g.deleted, h.line0 + h.deleted);
    RunUnique(c1, g.line1, g.line1 + g.inserted, h.line1 + h.inserted);
  }

  lemma RunUnique(c: seq<bool>, s: int, t: int, u: int)
    requires MarkedRun(c, s, t) && MarkedRun(c, s, u)
    ensures t == u
  {
  }

  lemma {:induction false} ScriptStaysInside(e0: seq<int>, e1: seq<int>, c0: seq<bool>, c1: seq<bool>, s: seq<Change>,
                                             p0: int, p1: int, q0: int, q1: int)
    requires Flags(c0, |e0|) && Flags(c1, |e1|) && Describes(e0, e1, c0, c1, s, p0, p1, q0, q1)
    ensures 0 <= p0 <= q0 && 0 <= p1 <= q1
    ensures |s| > 0 ==> s[0].line0 + s[0].deleted <= q0 && s[0].line1 + s[0].inserted <= q1
    decreases |s|
  {
    if |s| > 0 {
      ScriptStaysInside(e0, e1, c0, c1, s[1..], s[0].line0 + s[0].deleted, s[0].line1 + s[0].inserted, q0, q1);
    }
  }

  lemma HunkHasMark(c0: seq<bool>, c1: seq<bool>, h: Change)
    requires Hunk(c0, c1, h)
    ensures (h.deleted > 0 && c0[h.line0 + 1]) || (h.inserted > 0 && c1[h.line1 + 1])
  {
  }

  // ----- growing a description

  lemma DescribesEarlier(e0: seq<int>, e1: seq<int>, c0: seq<bool>, c1: seq<bool>, s: seq<Change>, p0: int, p1: int,
                         q0: int, q1: int)
    requires Flags(c0, |e0|) && Flags(c1, |e1|) && Describes(e0, e1, c0, c1, s, p0, p1, q0, q1)
    requires 0 < p0 <= |e0| && 0 < p1 <= |e1| && !c0[p0] && !c1[p1] && e0[p0 - 1] == e1[p1 - 1]
    ensures Describes(e0, e1, c0, c1, s, p0 - 1, p1 - 1, q0, q1)
  {
    var r0, r1 := if |s| == 0 then q0 else s[0].line0, if |s| == 0 then q1 else s[0].line1;
    assert Gap(e0, e1, c0, c1, p0, r0, p1, r1);
    assert e0[p0 - 1..r0] == [e0[p0 - 1]] + e0[p0..r0] && e1[p1 - 1..r1] == [e1[p1 - 1]] + e1[p1..r1];
  }

  lemma {:induction false} DescribesLater(e0: seq<int>, e1: seq<int>, c0: seq<bool>, c1: seq<bool>, s: seq<Change>,
                                          p0: int, p1: int, q0: int, q1: int)
    requires Flags(c0, |e0|) && Flags(c1, |e1|) && Describes(e0, e1, c0, c1, s, p0, p1, q0, q1)
    requires q0 < |e0| && q1 < |e1| && 0 <= q0 && 0 <= q1 && !c0[q0 + 1] && !c1[q1 + 1] && e0[q0] == e1[q1]
    ensures Describes(e0, e1, c0, c1, s, p0, p1, q0 + 1, q1 + 1)
    decreases |s|
  {
    if |s| == 0 {
      assert e0[p0..q0 + 1] == e0[p0..q0] + [e0[q0]] && e1[p1..q1 + 1] == e1[p1..q1] + [e1[q1]];
    } else {
      DescribesLater(e0, e1, c0, c1, s[1..], s[0].line0 + s[0].deleted, s[0].line1 + s[0].inserted, q0, q1);
    }
  }

  lemma {:induction false} DescribesMore(e0: seq<int>, e1: seq<int>, c0: seq<bool>, c1: seq<bool>, s: seq<Change>,
                                         h: Change, p0: int, p1: int)
    requires Flags(c0, |e0|) && Flags(c1, |e1|) && Hunk(c0, c1, h)
    requires Describes(e0, e1, c0, c1, s, p0, p1, h.line0, h.line1)
    ensures Describes(e0, e1, c0, c1, s + [h], p0, p1, h.line0 + h.deleted, h.line1 + h.inserted)
    decreases |s|
  {
    hide Flags, Hunk, Gap;
    var t := s + [h];
    if |s| == 0 {
      assert t == [h];
      DescribesOne(e0, e1, c0, c1, h, p0, p1);
    } else {
      DescribesMore(e0, e1, c0, c1, s[1..], h, s[0].line0 + s[0].deleted, s[0].line1 + s[0].inserted);
      assert t[1..] == s[1..] + [h];
    }
  }

  lemma DescribesOne(e0: seq<int>, e1: seq<int>, c0: seq<bool>, c1: seq<bool>, h: Change, p0: int, p1: int)
    requires Flags(c0, |e0|) && Flags(c1, |e1|) && Hunk(c0, c1, h)
    requires Describes(e0, e1, c0, c1, [], p0, p1, h.line0, h.line1)
    ensures Describes(e0, e1, c0, c1, [h], p0, p1, h.line0 + h.deleted, h.line1 + h.inserted)
  {
    assert [h][1..] == [];
    assert h.line0 + h.deleted <= |e0| && h.line1 + h.inserted <= |e1|;
  }

  ghost function Reversed(s: seq<Change>): (r: seq<Change>)
    ensures |r| == |s|
  {
    if |s| == 0 then [] else Reversed(s[1..]) + [s[0]]
  }

  // ----- the two builders

  /** Counts down while lines are marked. */
  method RunStart(changed: array<bool>, i0: int) returns (i: int)
    requires Flags(changed[..], changed.Length - 2) && 0 <= i0 < changed.Length - 1 && !changed[i0 + 1]
    ensures 0 <= i <= i0 && MarkedRun(changed[..], i, i0) && Unmarked(changed[..], i) == Unmarked(changed[..], i0)
  {
    i := i0;
    while changed[i]
      invariant 0 <= i <= i0 && forall k :: i < k <= i0 ==> changed[k]
      decreases i
    {
      i := i - 1;
    }
    UnmarkedRun(changed[..], i, i0);
  }

  method RunEnd(changed: array<bool>, i0: int) returns (i: int)
    requires Flags(changed[..], changed.Length - 2) && 0 <= i0 < changed.Length - 1 && !changed[i0]
    ensures i0 <= i < changed.Length - 1 && MarkedRun(changed[..], i0, i)
    ensures Unmarked(changed[..], i) == Unmarked(changed[..], i0)
  {
    i := i0;
    while changed[i + 1]
      invariant i0 <= i < changed.Length - 1 && forall k :: i0 < k <= i ==> changed[k]
      decreases changed.Length - i
    {
      i := i + 1;
    }
    UnmarkedRun(changed[..], i0, i);
  }

  /** The script in forward order, built from the ends of the files. */
  method BuildScript(ghost e0: seq<int>, ghost e1: seq<int>, changed0: array<bool>, changed1: array<bool>)
    returns (script: seq<Change>)
    requires Flags(changed0[..], |e0|) && Flags(changed1[..], |e1|)
    requires Aligned(e0, e1, Body(changed0[..]), Body(changed1[..]))
    ensures Describes(e0, e1, changed0[..], changed1[..], script, 0, 0, |e0|, |e1|)
  {
    hide Kept, Unmarked, Describes, MarkedRun;
    ghost var c0, c1 := changed0[..], changed1[..];
    AlignedIsBalanced(e0, e1, c0, c1);
    var i0, i1 := changed0.Length - 2, changed1.Length - 2;
    script := [];
    EmptyDescribes(e0, e1, c0, c1, i0, i1);
    while i0 >= 0 || i1 >= 0
      invariant -1 <= i0 <= |e0| && -1 <= i1 <= |e1| && (i0 >= 0 <==> i1 >= 0)
      invariant i0 >= 0 ==> !c0[i0 + 1] && !c1[i1 + 1] && Unmarked(c0, i0) == Unmarked(c1, i1)
      invariant i0 >= 0 ==> Describes(e0, e1, c0, c1, script, i0, i1, |e0|, |e1|)
      invariant i0 < 0 ==> Describes(e0, e1, c0, c1, script, 0, 0, |e0|, |e1|)
      decreases i0 + i1
    {
      if changed0[i0] || changed1[i1] {
        var line0, line1 := i0, i1;
        i0 := RunStart(changed0, i0);
        i1 := RunStart(changed1, i1);
        var h := Change(i0, i1, line0 - i0, line1 - i1);
        HunkFirst(e0, e1, c0, c1, h, script, |e0|, |e1|);
        script := [h] + script;
      }
      StepDown(e0, e1, c0, c1, i0, i1);
      if i0 > 0 {
        DescribesEarlier(e0, e1, c0, c1, script, i0, i1, |e0|, |e1|);
      }
      i0, i1 := i0 - 1, i1 - 1;
    }
  }

  lemma EmptyDescribes(e0: seq<int>, e1: seq<int>, c0: seq<bool>, c1: seq<bool>, p0: int, p1: int)
    requires Flags(c0, |e0|) && Flags(c1, |e1|) && 0 <= p0 <= |e0| && 0 <= p1 <= |e1|
    ensures Describes(e0, e1, c0, c1, [], p0, p1, p0, p1)
  {
  }

  lemma HunkFirst(e0: seq<int>, e1: seq<int>, c0: seq<bool>, c1: seq<bool>, h: Change, s: seq<Change>, q0: int, q1: int)
    requires Flags(c0, |e0|) && Flags(c1, |e1|)
    requires MarkedRun(c0, h.line0, h.line0 + h.deleted) && MarkedRun(c1, h.line1, h.line1 + h.inserted)
    requires c0[h.line0 + h.deleted] || c1[h.line1 + h.inserted]
    requires Describes(e0, e1, c0, c1, s, h.line0 + h.deleted, h.line1 + h.inserted, q0, q1)
    ensures !c0[h.line0] && !c1[h.line1]
    ensures Describes(e0, e1, c0, c1, [h] + s, h.line0, h.line1, q0, q1)
  {
    assert ([h] + s)[1..] == s;
  }

  /** Both counters stand after unmarked lines of equal rank, or both at the top. */
  lemma StepDown(e0: seq<int>, e1: seq<int>, c0: seq<bool>, c1: seq<bool>, i0: int, i1: int)
    requires Flags(c0, |e0|) && Flags(c1, |e1|) && Aligned(e0, e1, Body(c0), Body(c1))
    requires 0 <= i0 <= |e0| && 0 <= i1 <= |e1| && !c0[i0] && !c1[i1] && Unmarked(c0, i0) == Unmarked(c1, i1)
    ensures i0 == 0 <==> i1 == 0
    ensures i0 > 0 ==> Unmarked(c0, i0 - 1) == Unmarked(c1, i1 - 1) && e0[i0 - 1] == e1[i1 - 1]
  {
    UnmarkedBounds(c0, 0, i0);
    UnmarkedBounds(c1, 0, i1);
    if i0 > 0 {
      UnmarkedBounds(c0, 0, i0 - 1);
    }
    if i1 > 0 {
      UnmarkedBounds(c1, 0, i1 - 1);
    }
    if i0 > 0 && i1 > 0 {
      SameRankEqual(e0, e1, c0, c1, i0 - 1, i1 - 1);
    }
  }

  /** The script in reverse order, built from the beginnings of the files: exactly the same changes. */
  method BuildReverseScript(ghost e0: seq<int>, ghost e1: seq<int>, changed0: array<bool>, changed1: array<bool>)
    returns (script: seq<Change>)
    requires Flags(changed0[..], |e0|) && Flags(changed1[..], |e1|)
    requires Aligned(e0, e1, Body(changed0[..]), Body(changed1[..]))
    ensures Describes(e0, e1, changed0[..], changed1[..], Reversed(script), 0, 0, |e0|, |e1|)
  {
    hide Kept, Unmarked, Describes, MarkedRun;
    ghost var c0, c1 := changed0[..], changed1[..];
    AlignedIsBalanced(e0, e1, c0, c1);
    var len0, len1 := changed0.Length - 2, changed1.Length - 2;
    var i0, i1 := 0, 0;
    script := [];
    EmptyDescribes(e0, e1, c0, c1, 0, 0);
    BothStart(c0, c1);
    while i0 < len0 || i1 < len1
      invariant 0 <= i0 <= len0 + 1 && 0 <= i1 <= len1 + 1 && (i0 == len0 + 1 <==> i1 == len1 + 1)
      invariant i0 <= len0 ==> !c0[i0] && !c1[i1] && Unmarked(c0, i0) == Unmarked(c1, i1)
      invariant i0 <= len0 ==> Describes(e0, e1, c0, c1, Reversed(script), 0, 0, i0, i1)
      invariant i0 > len0 ==> Describes(e0, e1, c0, c1, Reversed(script), 0, 0, |e0|, |e1|)
      decreases len0 - i0 + len1 - i1
    {
      if changed0[i0 + 1] || changed1[i1 + 1] {
        var line0, line1 := i0, i1;
        i0 := RunEnd(changed0, i0);
        i1 := RunEnd(changed1, i1);
        var h := Change(line0, line1, i0 - line0, i1 - line1);
        HunkLast(e0, e1, c0, c1, Reversed(script), h);
        script := [h] + script;
        assert script[1..] == script[1..] && Reversed(script) == Reversed(script[1..]) + [h];
      }
      StepUp(e0, e1, c0, c1, i0, i1);
      if i0 < len0 {
        DescribesLater(e0, e1, c0, c1, Reversed(script), 0, 0, i0, i1);
      }
      i0, i1 := i0 + 1, i1 + 1;
    }
  }

  lemma BothStart(c0: seq<bool>, c1: seq<bool>)
    requires |c0| > 0 && |c1| > 0
    ensures Unmarked(c0, 0) == Unmarked(c1, 0) == 0
  {
  }

  lemma HunkLast(e0: seq<int>, e1: seq<int>, c0: seq<bool>, c1: seq<bool>, s: seq<Change>, h: Change)
    requires Flags(c0, |e0|) && Flags(c1, |e1|)
    requires MarkedRun(c0, h.line0, h.line0 + h.deleted) && MarkedRun(c1, h.line1, h.line1 + h.inserted)
    requires c0[h.line0 + 1] || c1[h.line1 + 1]
    requires Describes(e0, e1, c0, c1, s, 0, 0, h.line0, h.line1)
    ensures !c0[h.line0 + h.deleted + 1] && !c1[h.line1 + h.inserted + 1]
    ensures Describes(e0, e1, c0, c1, s + [h], 0, 0, h.line0 + h.deleted, h.line1 + h.inserted)
  {
    DescribesMore(e0, e1, c0, c1, s, h, 0, 0);
  }

  /** Both counters stand before unmarked lines of equal rank, or both at the end. */
  lemma StepUp(e0: seq<int>, e1: seq<int>, c0: seq<bool>, c1: seq<bool>, i0: int, i1: int)
    requires Flags(c0, |e0|) && Flags(c1, |e1|) && Aligned(e0, e1, Body(c0), Body(c1))
    requires 0 <= i0 <= |e0| && 0 <= i1 <= |e1| && !c0[i0 + 1] && !c1[i1 + 1] && Unmarked(c0, i0) == Unmarked(c1, i1)
    ensures i0 == |e0| <==> i1 == |e1|
    ensures i0 < |e0| ==> Unmarked(c0, i0 + 1) == Unmarked(c1, i1 + 1) && e0[i0] == e1[i1]
  {
    AlignedIsBalanced(e0, e1, c0, c1);
    if i0 < |e0| {
      UnmarkedBounds(c0, i0 + 1, |e0|);
    }
    if i1 < |e1| {
      UnmarkedBounds(c1, i1 + 1, |e1|);
    }
    if i0 < |e0| && i1 < |e1| {
      SameRankEqual(e0, e1, c0, c1, i0, i1);
    }
  }
}
