/**
  Difference lists: alternating runs of equal lines and of lines that have no counterpart, as the
  three-way alignment consumes them (`DiffList`, `DiffList::runDiff`, `ManualDiffHelpList::runDiff`).
 */
module DiffLists {
  import opened EditDistance
  import opened Alignment
  import opened FlagVector
  import opened EditScript
  import opened DiffTwoFiles
  import Frontier

  datatype Diff = Diff(equals: int, diff1: int, diff2: int) {
    /** Dissolves a short equal run into the difference that follows it. */
    function Refine(): Diff {
      if equals < 4 && (diff1 > 0 || diff2 > 0) then Diff(0, diff1 + equals, diff2 + equals) else this
    }
  }

  /** The list leads from position (p1, p2) to position (q1, q2), and its equal runs really are equal. */
  ghost predicate Covers<T>(dl: seq<Diff>, a: seq<T>, b: seq<T>, p1: int, p2: int, q1: int, q2: int)
    decreases |dl|
  {
    if |dl| == 0 then p1 == q1 && p2 == q2
    else
      && EqualRun(a, b, p1, p2, dl[0].equals) && 0 <= dl[0].diff1 && 0 <= dl[0].diff2
      && Covers(dl[1..], a, b, p1 + dl[0].equals + dl[0].diff1, p2 + dl[0].equals + dl[0].diff2, q1, q2)
  }

  ghost predicate EqualRun<T>(a: seq<T>, b: seq<T>, p1: int, p2: int, n: int) {
    0 <= n && 0 <= p1 && p1 + n <= |a| && 0 <= p2 && p2 + n <= |b| && a[p1..p1 + n] == b[p2..p2 + n]
  }

  ghost function Total1(dl: seq<Diff>): int {
    if |dl| == 0 then 0 else dl[0].equals + dl[0].diff1 + Total1(dl[1..])
  }

  ghost function Total2(dl: seq<Diff>): int {
    if |dl| == 0 then 0 else dl[0].equals + dl[0].diff2 + Total2(dl[1..])
  }

  /** The lines without counterpart. */
  ghost function Unpaired(dl: seq<Diff>): int {
    if |dl| == 0 then 0 else dl[0].diff1 + dl[0].diff2 + Unpaired(dl[1..])
  }

  /** The totals that the debug check of the original verifies follow from the coverage. */
  lemma {:induction false} CoversTotals<T>(dl: seq<Diff>, a: seq<T>, b: seq<T>, p1: int, p2: int, q1: int, q2: int)
    requires Covers(dl, a, b, p1, p2, q1, q2)
    ensures Total1(dl) == q1 - p1 && Total2(dl) == q2 - p2
    decreases |dl|
  {
    if |dl| > 0 {
      CoversTotals(dl[1..], a, b, p1 + dl[0].equals + dl[0].diff1, p2 + dl[0].equals + dl[0].diff2, q1, q2);
    }
  }

  lemma {:induction false} TotalsConcat(dl: seq<Diff>, el: seq<Diff>)
    ensures Total1(dl + el) == Total1(dl) + Total1(el) && Total2(dl + el) == Total2(dl) + Total2(el)
  {
    if |dl| == 0 {
      assert dl + el == el;
    } else {
      TotalsConcat(dl[1..], el);
      assert (dl + el)[1..] == dl[1..] + el;
    }
  }

  lemma {:induction false} CoversConcat<T>(dl: seq<Diff>, el: seq<Diff>, a: seq<T>, b: seq<T>, p1: int, p2: int,
                                           q1: int, q2: int, r1: int, r2: int)
    requires Covers(dl, a, b, p1, p2, q1, q2) && Covers(el, a, b, q1, q2, r1, r2)
    ensures Covers(dl + el, a, b, p1, p2, r1, r2)
    decreases |dl|
  {
    hide EqualRun;
    if |dl| == 0 {
      assert dl + el == el;
    } else {
      CoversConcat(dl[1..], el, a, b, p1 + dl[0].equals + dl[0].diff1, p2 + dl[0].equals + dl[0].diff2, q1, q2, r1, r2);
      assert (dl + el)[1..] == dl[1..] + el;
    }
  }

  lemma CoversOne<T>(d: Diff, a: seq<T>, b: seq<T>, p1: int, p2: int)
    requires EqualRun(a, b, p1, p2, d.equals) && 0 <= d.diff1 && 0 <= d.diff2
    ensures Covers([d], a, b, p1, p2, p1 + d.equals + d.diff1, p2 + d.equals + d.diff2)
  {
    assert [d][1..] == [];
  }

  lemma {:induction false} UnpairedConcat(dl: seq<Diff>, el: seq<Diff>)
    ensures Unpaired(dl + el) == Unpaired(dl) + Unpaired(el)
  {
    if |dl| == 0 {
      assert dl + el == el;
    } else {
      UnpairedConcat(dl[1..], el);
      assert (dl + el)[1..] == dl[1..] + el;
    }
  }

  /** Positions move along when the two runs are parts of longer ones. */
  lemma {:induction false} CoversShift<T>(dl: seq<Diff>, a: seq<T>, b: seq<T>, s1: int, t1: int, s2: int, t2: int,
                                          p1: int, p2: int, q1: int, q2: int)
    requires 0 <= s1 <= t1 <= |a| && 0 <= s2 <= t2 <= |b|
    requires Covers(dl, a[s1..t1], b[s2..t2], p1, p2, q1, q2)
    ensures Covers(dl, a, b, s1 + p1, s2 + p2, s1 + q1, s2 + q2)
    decreases |dl|
  {
    if |dl| > 0 {
      var d := dl[0];
      SliceOfSlice(a, s1, t1, p1, p1 + d.equals);
      SliceOfSlice(b, s2, t2, p2, p2 + d.equals);
      CoversShift(dl[1..], a, b, s1, t1, s2, t2, p1 + d.equals + d.diff1, p2 + d.equals + d.diff2, q1, q2);
    }
  }

  /** Coverage depends only on which elements are equal. */
  lemma {:induction false} CoversTransfer<S, T>(dl: seq<Diff>, a: seq<S>, b: seq<S>, x: seq<T>, y: seq<T>, p1: int,
                                                p2: int, q1: int, q2: int)
    requires Covers(dl, a, b, p1, p2, q1, q2) && |x| == |a| && |y| == |b|
    requires forall i, j :: 0 <= i < |a| && 0 <= j < |b| && a[i] == b[j] ==> x[i] == y[j]
    ensures Covers(dl, x, y, p1, p2, q1, q2)
    decreases |dl|
  {
    if |dl| > 0 {
      var n := dl[0].equals;
      var u, v, s, t := a[p1..p1 + n], b[p2..p2 + n], x[p1..p1 + n], y[p2..p2 + n];
      assert u == v;
      forall k | 0 <= k < n
        ensures s[k] == t[k]
      {
        assert u[k] == a[p1 + k] && v[k] == b[p2 + k];
      }
      CoversTransfer(dl[1..], a, b, x, y, p1 + n + dl[0].diff1, p2 + n + dl[0].diff2, q1, q2);
    }
  }

  lemma SliceOfSlice<T>(a: seq<T>, s: int, t: int, p: int, q: int)
    requires 0 <= s <= t <= |a| && 0 <= p <= q <= t - s
    ensures a[s..t][p..q] == a[s + p..s + q]
  {
    var w, x, y := a[s..t], a[s..t][p..q], a[s + p..s + q];
    forall i | 0 <= i < q - p
      ensures x[i] == y[i]
    {
      assert x[i] == w[p + i] == a[s + p + i];
    }
  }

  // ----- the flags of a difference list

  function Repeat(b: bool, n: int): (r: seq<bool>)
    ensures |r| == if n < 0 then 0 else n
    ensures forall i :: 0 <= i < |r| ==> r[i] == b
  {
    if n <= 0 then [] else seq(n, _ => b)
  }

  /** Which lines of side 1 have no counterpart. */
  ghost function Marks1(dl: seq<Diff>): seq<bool> {
    if |dl| == 0 then [] else Repeat(false, dl[0].equals) + Repeat(true, dl[0].diff1) + Marks1(dl[1..])
  }

  ghost function Marks2(dl: seq<Diff>): seq<bool> {
    if |dl| == 0 then [] else Repeat(false, dl[0].equals) + Repeat(true, dl[0].diff2) + Marks2(dl[1..])
  }

  lemma {:induction false} MarksConcat(dl: seq<Diff>, el: seq<Diff>)
    ensures Marks1(dl + el) == Marks1(dl) + Marks1(el) && Marks2(dl + el) == Marks2(dl) + Marks2(el)
  {
    hide Marks1, Marks2, HeadMarks;
    if |dl| == 0 {
      assert dl + el == el && dl == [];
      NoMarks();
    } else {
      MarksConcat(dl[1..], el);
      var fl := dl + el;
      assert fl[0] == dl[0] && fl[1..] == dl[1..] + el;
      MarksBegin(dl);
      MarksBegin(fl);
      Regroup(HeadMarks(dl[0].equals, dl[0].diff1), Marks1(dl[1..]), Marks1(el));
      Regroup(HeadMarks(dl[0].equals, dl[0].diff2), Marks2(dl[1..]), Marks2(el));
    }
  }

  lemma NoMarks()
    ensures Marks1([]) == [] && Marks2([]) == []
  {
  }

  ghost function HeadMarks(equals: int, diff: int): seq<bool> { Repeat(false, equals) + Repeat(true, diff) }

  lemma MarksBegin(dl: seq<Diff>)
    requires |dl| > 0
    ensures Marks1(dl) == HeadMarks(dl[0].equals, dl[0].diff1) + Marks1(dl[1..])
    ensures Marks2(dl) == HeadMarks(dl[0].equals, dl[0].diff2) + Marks2(dl[1..])
  {
  }

  lemma Regroup(x: seq<bool>, y: seq<bool>, z: seq<bool>)
    ensures x + (y + z) == (x + y) + z
  {
  }

  lemma MarksOne(d: Diff)
    ensures Marks1([d]) == Repeat(false, d.equals) + Repeat(true, d.diff1)
    ensures Marks2([d]) == Repeat(false, d.equals) + Repeat(true, d.diff2)
    ensures Marks1([]) == [] && Marks2([]) == []
  {
    assert [d][1..] == [];
  }

  lemma MarksSnoc(dl: seq<Diff>, d: Diff)
    ensures Marks1(dl + [d]) == Marks1(dl) + Repeat(false, d.equals) + Repeat(true, d.diff1)
    ensures Marks2(dl + [d]) == Marks2(dl) + Repeat(false, d.equals) + Repeat(true, d.diff2)
  {
    MarksConcat(dl, [d]);
    MarksOne(d);
  }

  /** A list that covers both sides is a valid alignment of them. */
  lemma {:induction false} CoversIsAligned<T>(dl: seq<Diff>, a: seq<T>, b: seq<T>, p1: int, p2: int)
    requires 0 <= p1 && 0 <= p2 && Covers(dl, a, b, p1, p2, |a|, |b|)
    ensures p1 <= |a| && p2 <= |b| && Aligned(a[p1..], b[p2..], Marks1(dl), Marks2(dl))
    decreases |dl|
  {
    hide Kept;
    if |dl| == 0 {
      assert a[p1..] == [] && b[p2..] == [];
      EmptyKept<T>();
    } else {
      var d := dl[0];
      var m1, m2 := p1 + d.equals, p2 + d.equals;
      CoversIsAligned(dl[1..], a, b, m1 + d.diff1, m2 + d.diff2);
      PieceKept(a, p1, d.equals, d.diff1, Marks1(dl[1..]));
      PieceKept(b, p2, d.equals, d.diff2, Marks2(dl[1..]));
    }
  }

  lemma EmptyKept<T>()
    ensures Kept<T>([], []) == []
  {
  }

  lemma PieceKept<T>(a: seq<T>, p: int, n: int, m: int, rest: seq<bool>)
    requires 0 <= p && 0 <= n && 0 <= m && p + n + m <= |a| && |rest| == |a| - p - n - m
    ensures Kept(a[p..], Repeat(false, n) + Repeat(true, m) + rest) == a[p..p + n] + Kept(a[p + n + m..], rest)
  {
    hide Kept;
    var s, t, u := a[p..p + n], a[p + n..p + n + m], a[p + n + m..];
    assert a[p..] == (s + t) + u;
    KeptConcat(s + t, u, Repeat(false, n) + Repeat(true, m), rest);
    KeptConcat(s, t, Repeat(false, n), Repeat(true, m));
    NoneMarked(s, Repeat(false, n));
    AllMarked(t, Repeat(true, m));
  }

  // ----- from the edit script to the list

  /** One entry per change: the equal lines before it and the lines it deletes and inserts. */
  method ScriptToDiffs(ghost e0: seq<int>, ghost e1: seq<int>, ghost c0: seq<bool>, ghost c1: seq<bool>,
                       script: seq<Change>)
    returns (dl: seq<Diff>, currentLine1: int, currentLine2: int)
    requires Flags(c0, |e0|) && Flags(c1, |e1|) && Describes(e0, e1, c0, c1, script, 0, 0, |e0|, |e1|)
    ensures |dl| == |script| && 0 <= currentLine1 <= |e0| && 0 <= currentLine2 <= |e1|
    ensures Covers(dl, e0, e1, 0, 0, currentLine1, currentLine2) && e0[currentLine1..] == e1[currentLine2..]
    ensures Unpaired(dl) == Size(script)
    ensures Marks1(dl) + Repeat(false, |e0| - currentLine1) == Body(c0)
    ensures Marks2(dl) + Repeat(false, |e1| - currentLine2) == Body(c1)
  {
    hide Describes, Covers, Unpaired, Size, Marks1, Marks2, Repeat;
    dl, currentLine1, currentLine2 := [], 0, 0;
    NoDiffs(e0, e1);
    MarksOne(Diff(0, 0, 0));
    assert MarksUpTo(dl, c0, c1, 0, 0);
    var i := 0;
    assert script[0..] == script;
    while i < |script|
      invariant 0 <= i <= |script| && |dl| == i && 0 <= currentLine1 <= |e0| && 0 <= currentLine2 <= |e1|
      invariant Covers(dl, e0, e1, 0, 0, currentLine1, currentLine2)
      invariant Describes(e0, e1, c0, c1, script[i..], currentLine1, currentLine2, |e0|, |e1|)
      invariant Unpaired(dl) + Size(script[i..]) == Size(script)
      invariant MarksUpTo(dl, c0, c1, currentLine1, currentLine2)
    {
      var e := script[i];
      DescribesHead(e0, e1, c0, c1, script[i..], currentLine1, currentLine2, |e0|, |e1|);
      assert script[i..][1..] == script[i + 1..];
      HunkInside(c0, c1, e);
      assert |e0[currentLine1..e.line0]| == |e1[currentLine2..e.line1]|;
      var d := Diff(e.line0 - currentLine1, e.deleted, e.inserted);
      assert d.equals == e.line1 - currentLine2;
      CoversOne(d, e0, e1, currentLine1, currentLine2);
      CoversConcat(dl, [d], e0, e1, 0, 0, currentLine1, currentLine2, e.line0 + e.deleted, e.line1 + e.inserted);
      UnpairedSnoc(dl, d);
      MarksGrow(dl, d, c0, c1, currentLine1, currentLine2);
      SizeHead(script[i..]);
      currentLine1 := currentLine1 + d.equals + d.diff1;
      currentLine2 := currentLine2 + d.equals + d.diff2;
      dl := dl + [d];
      i := i + 1;
    }
    assert script[|script|..] == [];
    RestEqual(e0, e1, c0, c1, currentLine1, currentLine2);
    FlagsUpTo(c0, currentLine1, |e0|, |e0|);
    FlagsUpTo(c1, currentLine2, |e1|, |e1|);
  }

  /** The list marks the lines up to the given positions as the flags do. */
  ghost predicate MarksUpTo(dl: seq<Diff>, c0: seq<bool>, c1: seq<bool>, p0: int, p1: int) {
    && 0 <= p0 <= |c0| - 2 && 0 <= p1 <= |c1| - 2
    && Marks1(dl) == Body(c0)[..p0] && Marks2(dl) == Body(c1)[..p1]
  }

  lemma MarksGrow(dl: seq<Diff>, d: Diff, c0: seq<bool>, c1: seq<bool>, p0: int, p1: int)
    requires MarksUpTo(dl, c0, c1, p0, p1) && 0 <= d.equals && 0 <= d.diff1 && 0 <= d.diff2
    requires p0 + d.equals + d.diff1 <= |c0| - 2 && p1 + d.equals + d.diff2 <= |c1| - 2
    requires forall k :: p0 < k <= p0 + d.equals ==> !c0[k]
    requires forall k :: p0 + d.equals < k <= p0 + d.equals + d.diff1 ==> c0[k]
    requires forall k :: p1 < k <= p1 + d.equals ==> !c1[k]
    requires forall k :: p1 + d.equals < k <= p1 + d.equals + d.diff2 ==> c1[k]
    ensures MarksUpTo(dl + [d], c0, c1, p0 + d.equals + d.diff1, p1 + d.equals + d.diff2)
  {
    hide Marks1, Marks2, Repeat, Body;
    MarksSnoc(dl, d);
    FlagsUpTo(c0, p0, p0 + d.equals, p0 + d.equals + d.diff1);
    FlagsUpTo(c1, p1, p1 + d.equals, p1 + d.equals + d.diff2);
  }

  /** The flags of the unmarked lines from p to q and of the marked ones from there to r. */
  lemma FlagsUpTo(c: seq<bool>, p: int, q: int, r: int)
    requires 0 <= p <= q <= r <= |c| - 2
    requires (forall k :: p < k <= q ==> !c[k]) && (forall k :: q < k <= r ==> c[k])
    ensures Body(c)[..r] == Body(c)[..p] + Repeat(false, q - p) + Repeat(true, r - q)
    ensures r == |c| - 2 ==> Body(c)[..r] == Body(c)
    ensures r == q == |c| - 2 ==> Body(c)[..p] + Repeat(false, q - p) == Body(c)
  {
  }

  lemma NoDiffs(e0: seq<int>, e1: seq<int>)
    ensures Covers([], e0, e1, 0, 0, 0, 0) && Unpaired([]) == 0 && Size([]) == 0
  {
  }

  lemma UnpairedSnoc(dl: seq<Diff>, d: Diff)
    ensures Unpaired(dl + [d]) == Unpaired(dl) + d.diff1 + d.diff2
  {
    UnpairedConcat(dl, [d]);
    assert [d][1..] == [];
  }

  lemma SizeHead(s: seq<Change>)
    requires |s| > 0
    ensures Size(s) == s[0].deleted + s[0].inserted + Size(s[1..])
  {
  }

  lemma RestEqual(e0: seq<int>, e1: seq<int>, c0: seq<bool>, c1: seq<bool>, p0: int, p1: int)
    requires Flags(c0, |e0|) && Flags(c1, |e1|) && 0 <= p0 <= |e0| && 0 <= p1 <= |e1|
    requires Describes(e0, e1, c0, c1, [], p0, p1, |e0|, |e1|)
    ensures e0[p0..] == e1[p1..]
    ensures (forall k :: p0 < k <= |e0| ==> !c0[k]) && (forall k :: p1 < k <= |e1| ==> !c1[k])
  {
    assert e0[p0..|e0|] == e0[p0..] && e1[p1..|e1|] == e1[p1..];
  }

  // ----- runDiff

  /** What is known about the text of a file: no line table at all, lines without a buffer, or text. */
  datatype Source = NoLines | NoBuffer | Text

  /** Equal ends of two runs of lines, as they are cut off before the comparison. */
  predicate EqualEnds(a: seq<int>, b: seq<int>, prefix: int, suffix: int) {
    && 0 <= prefix && 0 <= suffix && prefix + suffix <= |a| && prefix + suffix <= |b|
    && a[..prefix] == b[..prefix] && a[|a| - suffix..] == b[|b| - suffix..]
  }

  /** Which of the equal lines are cut off is left open: the result below holds for every choice. */
  method FindIdenticalEnds(a: seq<int>, b: seq<int>) returns (prefix: int, suffix: int)
    ensures EqualEnds(a, b, prefix, suffix)
  {
    prefix := *;
    suffix := *;
    if !(0 <= prefix && 0 <= suffix && prefix + suffix <= |a| && prefix + suffix <= |b|
         && a[..prefix] == b[..prefix] && a[|a| - suffix..] == b[|b| - suffix..]) {
      prefix, suffix := 0, 0;
      assert a[|a|..] == [] && b[|b|..] == [];
    }
  }

  lemma EndsCostNothing(a: seq<int>, b: seq<int>, prefix: int, suffix: int)
    requires EqualEnds(a, b, prefix, suffix)
    ensures Dist(a, b, 0, |a|, 0, |b|)
         == Dist(a[prefix..|a| - suffix], b[prefix..|b| - suffix], 0, |a| - suffix - prefix, 0, |b| - suffix - prefix)
  {
    PrefixCost(a, b, prefix);
    SuffixCost(a, b, prefix, suffix);
    WindowCost(a, b, prefix, |a| - suffix, prefix, |b| - suffix, 0, 0);
  }

  lemma {:induction false} PrefixCost(a: seq<int>, b: seq<int>, prefix: int)
    requires 0 <= prefix <= |a| && prefix <= |b| && a[..prefix] == b[..prefix]
    ensures Dist(a, b, 0, |a|, 0, |b|) == Dist(a, b, prefix, |a|, prefix, |b|)
    decreases prefix
  {
    if prefix > 0 {
      assert a[..prefix - 1] == a[..prefix][..prefix - 1] == b[..prefix][..prefix - 1] == b[..prefix - 1];
      assert a[prefix - 1] == a[..prefix][prefix - 1] == b[..prefix][prefix - 1] == b[prefix - 1];
      PrefixCost(a, b, prefix - 1);
    }
  }

  lemma {:induction false} SuffixCost(a: seq<int>, b: seq<int>, p: int, suffix: int)
    requires 0 <= p && 0 <= suffix && p + suffix <= |a| && p + suffix <= |b| && a[|a| - suffix..] == b[|b| - suffix..]
    ensures Dist(a, b, p, |a|, p, |b|) == Dist(a, b, p, |a| - suffix, p, |b| - suffix)
    decreases suffix
  {
    if suffix > 0 {
      var s, t := a[|a| - suffix..], b[|b| - suffix..];
      assert a[|a| - (suffix - 1)..] == s[1..] == t[1..] == b[|b| - (suffix - 1)..];
      assert a[|a| - suffix] == s[0] == t[0] == b[|b| - suffix];
      SuffixCost(a, b, p, suffix - 1);
      BackUnroll(a, b, p, |a| - suffix + 1, p, |b| - suffix + 1);
    }
  }

  lemma {:induction false} WindowCost(a: seq<int>, b: seq<int>, s1: int, t1: int, s2: int, t2: int, i: int, j: int)
    requires 0 <= s1 <= t1 <= |a| && 0 <= s2 <= t2 <= |b| && 0 <= i <= t1 - s1 && 0 <= j <= t2 - s2
    ensures Dist(a, b, s1 + i, t1, s2 + j, t2) == Dist(a[s1..t1], b[s2..t2], i, t1 - s1, j, t2 - s2)
    decreases t1 - s1 - i + t2 - s2 - j
  {
    if i < t1 - s1 && j < t2 - s2 {
      assert a[s1..t1][i] == a[s1 + i] && b[s2..t2][j] == b[s2 + j];
      if a[s1 + i] == b[s2 + j] {
        WindowCost(a, b, s1, t1, s2, t2, i + 1, j + 1);
      } else {
        WindowCost(a, b, s1, t1, s2, t2, i + 1, j);
        WindowCost(a, b, s1, t1, s2, t2, i, j + 1);
      }
    }
  }

  /** What is left between the ends that are cut off. */
  function Between(a: seq<int>, prefix: int, suffix: int): seq<int>
    requires 0 <= prefix && 0 <= suffix && prefix + suffix <= |a|
  {
    a[prefix..|a| - suffix]
  }

  /** The flags between equal ends, seen from the whole file: the ends are unmarked. */
  ghost function Widened(prefix: int, c: seq<bool>, suffix: int): seq<bool> {
    Repeat(false, prefix) + c + Repeat(false, suffix)
  }

  /**
    The list marks exactly the lines that the differ marks between some equal ends; if one side is empty, all
    lines are without counterpart.
   */
  ghost predicate MadeBy(dl: seq<Diff>, a: seq<int>, b: seq<int>, minimal: bool, speedLargeFiles: bool) {
    if |a| == 0 || |b| == 0 then dl == [Diff(0, |a|, |b|)]
    else exists prefix, suffix, c0, c1 :: MadeBetween(dl, a, b, prefix, suffix, c0, c1, minimal, speedLargeFiles)
  }

  ghost predicate MadeBetween(dl: seq<Diff>, a: seq<int>, b: seq<int>, prefix: int, suffix: int, c0: seq<bool>,
                              c1: seq<bool>, minimal: bool, speedLargeFiles: bool) {
    && EqualEnds(a, b, prefix, suffix)
    && Differed(Between(a, prefix, suffix), Between(b, prefix, suffix), c0, c1, minimal, speedLargeFiles)
    && Economical(Between(a, prefix, suffix), Between(b, prefix, suffix), Unpaired(dl), minimal, speedLargeFiles)
    && |c0| >= 2 && Marks1(dl) == Widened(prefix, Body(c0), suffix)
    && |c1| >= 2 && Marks2(dl) == Widened(prefix, Body(c1), suffix)
  }

  /** With `minimal`, and for equal files, as many lines are without counterpart as the distance demands. */
  lemma MadeIsMinimal(dl: seq<Diff>, a: seq<int>, b: seq<int>, minimal: bool, speedLargeFiles: bool)
    requires MadeBy(dl, a, b, minimal, speedLargeFiles) && (minimal || a == b)
    ensures Unpaired(dl) == Dist(a, b, 0, |a|, 0, |b|)
  {
    hide Dist, Unpaired, MadeBetween;
    if |a| == 0 || |b| == 0 {
      AllUnpaired(a, b);
    } else {
      var prefix, suffix, c0, c1 :| MadeBetween(dl, a, b, prefix, suffix, c0, c1, minimal, speedLargeFiles);
      MiddleIsMinimal(dl, a, b, prefix, suffix, c0, c1, minimal, speedLargeFiles);
    }
  }

  lemma MiddleIsMinimal(dl: seq<Diff>, a: seq<int>, b: seq<int>, prefix: int, suffix: int, c0: seq<bool>,
                        c1: seq<bool>, minimal: bool, speedLargeFiles: bool)
    requires MadeBetween(dl, a, b, prefix, suffix, c0, c1, minimal, speedLargeFiles) && (minimal || a == b)
    ensures Unpaired(dl) == Dist(a, b, 0, |a|, 0, |b|)
  {
    hide Economical, Dist, Unpaired, Marks1, Marks2, Widened, Differed;
    EconomicalIsMinimal(Between(a, prefix, suffix), Between(b, prefix, suffix), Unpaired(dl), minimal,
                        speedLargeFiles);
    EndsCostNothing(a, b, prefix, suffix);
  }

  /**
    The difference list of two files, given their equivalence codes.  It covers both files, and the lines
    without counterpart are those that the differ marks; with `minimal` they are as few as any valid alignment
    leaves, and for equal files there are none in any case.
   */
  method RunDiff(source1: Source, a: seq<int>, source2: Source, b: seq<int>, equivMax: nat, minimal: bool,
                 speedLargeFiles: bool)
    returns (dl: seq<Diff>)
    requires Codes(a, equivMax) && Codes(b, equivMax) && |a| + |b| < Frontier.GNULINEREF_MAX
    ensures Total1(dl) == |a| && Total2(dl) == |b|
    ensures !(source1 == source2 == NoBuffer) ==> Covers(dl, a, b, 0, 0, |a|, |b|)
    ensures source1 == source2 == Text ==> MadeBy(dl, a, b, minimal, speedLargeFiles)
    ensures source1 != Text || source2 != Text ==>
              dl == [if source1 == source2 == NoBuffer && |a| == |b| then Diff(|a|, 0, 0) else Diff(0, |a|, |b|)]
    ensures (minimal || a == b) && source1 == source2 == Text ==> Unpaired(dl) == Dist(a, b, 0, |a|, 0, |b|)
  {
    hide Dist, Covers, Unpaired, MadeBetween;
    if source1 != Text || source2 != Text || |a| == 0 || |b| == 0 {
      if source1 == source2 == NoBuffer && |a| == |b| {
        dl := [Diff(|a|, 0, 0)];
      } else {
        dl := [Diff(0, |a|, |b|)];
        CoversOne(dl[0], a, b, 0, 0);
        AllUnpaired(a, b);
      }
      assert dl[1..] == [];
    } else {
      dl := RunDiffOnText(a, b, equivMax, minimal, speedLargeFiles);
      CoversTotals(dl, a, b, 0, 0, |a|, |b|);
      if minimal || a == b {
        MadeIsMinimal(dl, a, b, minimal, speedLargeFiles);
      }
    }
  }

  lemma AllUnpaired(a: seq<int>, b: seq<int>)
    ensures Unpaired([Diff(0, |a|, |b|)]) == |a| + |b|
    ensures |a| == 0 || |b| == 0 ==> Dist(a, b, 0, |a|, 0, |b|) == |a| + |b|
  {
    assert [Diff(0, |a|, |b|)][1..] == [];
  }

  method RunDiffOnText(a: seq<int>, b: seq<int>, equivMax: nat, minimal: bool, speedLargeFiles: bool)
    returns (dl: seq<Diff>)
    requires Codes(a, equivMax) && Codes(b, equivMax) && |a| + |b| < Frontier.GNULINEREF_MAX && a != [] && b != []
    ensures Covers(dl, a, b, 0, 0, |a|, |b|)
    ensures MadeBy(dl, a, b, minimal, speedLargeFiles)
  {
    hide Dist, Covers, Unpaired, Describes, InRange, Size, Economical, EqualEnds, Differed, Marks1, Marks2, Widened;
    var equalLinesAtStart, equalLinesAtEnd := FindIdenticalEnds(a, b);
    EndsFit(a, b, equalLinesAtStart, equalLinesAtEnd);
    var middle0, middle1 := Between(a, equalLinesAtStart, equalLinesAtEnd), Between(b, equalLinesAtStart,
                                                                                    equalLinesAtEnd);
    var script, c0, c1 := Diff2Files(middle0, middle1, equivMax, minimal, speedLargeFiles);
    var currentLine1, currentLine2;
    dl, currentLine1, currentLine2 := ScriptToDiffs(middle0, middle1, c0, c1, script);
    InTheWhole(dl, a, b, equalLinesAtStart, equalLinesAtEnd, currentLine1, currentLine2);
    ghost var marks1, marks2 := Marks1(dl), Marks2(dl);
    if |dl| == 0 {
      NoDiffsMeans(dl, a, b, equalLinesAtStart, currentLine1, currentLine2);
      SameFile(a, b, equalLinesAtStart);
      var numofEquals := Min(|a|, |b|);
      dl := [Diff(numofEquals, |a| - numofEquals, |b| - numofEquals)];
      AllRepeated(equalLinesAtStart, |middle0|, equalLinesAtEnd);
    } else {
      dl := AddEnds(dl, a, b, equalLinesAtStart, currentLine1, currentLine2);
    }
    MarksWidened(marks1, Body(c0), equalLinesAtStart, |middle0| - currentLine1, equalLinesAtEnd);
    MarksWidened(marks2, Body(c1), equalLinesAtStart, |middle1| - currentLine2, equalLinesAtEnd);
    assert MadeBetween(dl, a, b, equalLinesAtStart, equalLinesAtEnd, c0, c1, minimal, speedLargeFiles);
  }

  lemma MarksWidened(m: seq<bool>, c: seq<bool>, prefix: int, rest: int, suffix: int)
    requires m + Repeat(false, rest) == c && 0 <= rest && 0 <= suffix
    ensures Repeat(false, prefix) + m + Repeat(false, rest + suffix) == Widened(prefix, c, suffix)
  {
    assert Repeat(false, rest + suffix) == Repeat(false, rest) + Repeat(false, suffix);
  }

  /** Files without difference have one entry. */
  lemma SameFile(a: seq<int>, b: seq<int>, prefix: int)
    requires 0 <= prefix <= |a| && prefix <= |b| && a[..prefix] == b[..prefix] && a[prefix..] == b[prefix..]
    ensures var dl := [Diff(|a|, 0, 0)];
            && |b| == |a| && Covers(dl, a, b, 0, 0, |a|, |b|) && Unpaired(dl) == 0
            && Marks1(dl) == Repeat(false, |a|) + Repeat(true, 0) && Marks2(dl) == Repeat(false, |a|) + Repeat(true, 0)
  {
    hide Covers, Unpaired, Marks1, Marks2, Repeat;
    assert a == a[..prefix] + a[prefix..] && b == b[..prefix] + b[prefix..];
    var d := Diff(|a|, 0, 0);
    CoversOne(d, a, b, 0, 0);
    OneUnpaired(d);
    MarksOne(d);
  }

  lemma AllRepeated(prefix: int, n: int, suffix: int)
    requires 0 <= prefix && 0 <= n && 0 <= suffix
    ensures Repeat(false, prefix + n + suffix) + Repeat(true, 0)
            == Repeat(false, prefix) + [] + Repeat(false, n + suffix)
  {
  }

  lemma EndsFit(a: seq<int>, b: seq<int>, prefix: int, suffix: int)
    requires EqualEnds(a, b, prefix, suffix)
    ensures 0 <= prefix && 0 <= suffix && prefix + suffix <= |a| && prefix + suffix <= |b|
    ensures a[..prefix] == b[..prefix]
  {
  }

  /** The list for what lies between equal ends, seen from the whole files. */
  lemma InTheWhole(dl: seq<Diff>, a: seq<int>, b: seq<int>, prefix: int, suffix: int, c1: int, c2: int)
    requires EqualEnds(a, b, prefix, suffix)
    requires 0 <= c1 <= |a| - suffix - prefix && 0 <= c2 <= |b| - suffix - prefix
    requires Covers(dl, Between(a, prefix, suffix), Between(b, prefix, suffix), 0, 0, c1, c2)
    requires Between(a, prefix, suffix)[c1..] == Between(b, prefix, suffix)[c2..]
    ensures Covers(dl, a, b, prefix, prefix, prefix + c1, prefix + c2) && a[prefix + c1..] == b[prefix + c2..]
  {
    hide Covers;
    CoversShift(dl, a, b, prefix, |a| - suffix, prefix, |b| - suffix, 0, 0, c1, c2);
    TailsEqual(a, b, prefix, suffix, c1, c2);
  }

  /** Adds the equal lines before the first and after the last change. */
  method AddEnds(dl0: seq<Diff>, a: seq<int>, b: seq<int>, equalLinesAtStart: int, line1: int, line2: int)
    returns (dl: seq<Diff>)
    requires |dl0| > 0 && 0 <= equalLinesAtStart <= |a| && equalLinesAtStart <= |b|
    requires a[..equalLinesAtStart] == b[..equalLinesAtStart]
    requires Covers(dl0, a, b, equalLinesAtStart, equalLinesAtStart, equalLinesAtStart + line1,
                    equalLinesAtStart + line2)
    requires 0 <= line1 && equalLinesAtStart + line1 <= |a| && 0 <= line2 && equalLinesAtStart + line2 <= |b|
    requires a[equalLinesAtStart + line1..] == b[equalLinesAtStart + line2..]
    ensures Covers(dl, a, b, 0, 0, |a|, |b|) && Unpaired(dl) == Unpaired(dl0)
    ensures Marks1(dl) == Repeat(false, equalLinesAtStart) + Marks1(dl0)
                          + Repeat(false, |a| - equalLinesAtStart - line1)
    ensures Marks2(dl) == Repeat(false, equalLinesAtStart) + Marks2(dl0)
                          + Repeat(false, |b| - equalLinesAtStart - line2)
  {
    hide Covers, Unpaired, Marks1, Marks2;
    dl := dl0;
    FrontAdjusted(dl, a, b, equalLinesAtStart, equalLinesAtStart + line1, equalLinesAtStart + line2);
    dl := [dl[0].(equals := dl[0].equals + equalLinesAtStart)] + dl[1..];
    var currentLine1 := line1 + equalLinesAtStart;
    var currentLine2 := line2 + equalLinesAtStart;
    assert |a[currentLine1..]| == |b[currentLine2..]|;
    var nofEquals := Min(|a| - currentLine1, |b| - currentLine2);
    if nofEquals == 0 {
      var last := |dl| - 1;
      assert |a| == currentLine1 && |b| == currentLine2;
      ghost var same := dl[last].(diff1 := dl[last].diff1 + (|a| - currentLine1),
                                  diff2 := dl[last].diff2 + (|b| - currentLine2));
      assert same == dl[last] && dl[last := same] == dl;
      dl := dl[last := dl[last].(diff1 := dl[last].diff1 + (|a| - currentLine1),
                                 diff2 := dl[last].diff2 + (|b| - currentLine2))];
    } else {
      var d := Diff(nofEquals, |a| - currentLine1 - nofEquals, |b| - currentLine2 - nofEquals);
      assert a[currentLine1..|a|] == a[currentLine1..] && b[currentLine2..|b|] == b[currentLine2..];
      CoversOne(d, a, b, currentLine1, currentLine2);
      CoversConcat(dl, [d], a, b, 0, 0, currentLine1, currentLine2, |a|, |b|);
      UnpairedSnoc(dl, d);
      MarksSnoc(dl, d);
      dl := dl + [d];
    }
  }

  lemma NoDiffsMeans(dl: seq<Diff>, a: seq<int>, b: seq<int>, p: int, c1: int, c2: int)
    requires |dl| == 0 && Covers(dl, a, b, p, p, p + c1, p + c2)
    ensures c1 == 0 && c2 == 0 && Unpaired(dl) == 0 && Marks1(dl) == [] && Marks2(dl) == []
  {
  }

  lemma OneUnpaired(d: Diff)
    ensures Unpaired([d]) == d.diff1 + d.diff2
  {
    assert [d][1..] == [];
  }

  /** The equal lines cut off at the start are added to the first entry. */
  lemma FrontAdjusted(dl: seq<Diff>, a: seq<int>, b: seq<int>, prefix: int, q1: int, q2: int)
    requires |dl| > 0 && 0 <= prefix <= |a| && prefix <= |b| && a[..prefix] == b[..prefix]
    requires Covers(dl, a, b, prefix, prefix, q1, q2)
    ensures var el := [dl[0].(equals := dl[0].equals + prefix)] + dl[1..];
            Covers(el, a, b, 0, 0, q1, q2) && Unpaired(el) == Unpaired(dl)
            && Marks1(el) == Repeat(false, prefix) + Marks1(dl) && Marks2(el) == Repeat(false, prefix) + Marks2(dl)
  {
    var n := dl[0].equals;
    assert Repeat(false, prefix + n) == Repeat(false, prefix) + Repeat(false, n);
    var el := [dl[0].(equals := n + prefix)] + dl[1..];
    assert el[1..] == dl[1..];
    assert a[0..n + prefix] == a[..prefix] + a[prefix..prefix + n];
    assert b[0..n + prefix] == b[..prefix] + b[prefix..prefix + n];
  }

  /** What follows the last change, and the lines cut off at the end, are equal. */
  lemma TailsEqual(a: seq<int>, b: seq<int>, prefix: int, suffix: int, c1: int, c2: int)
    requires EqualEnds(a, b, prefix, suffix)
    requires 0 <= c1 <= |a| - suffix - prefix && 0 <= c2 <= |b| - suffix - prefix
    requires a[prefix..|a| - suffix][c1..] == b[prefix..|b| - suffix][c2..]
    ensures a[prefix + c1..] == b[prefix + c2..]
  {
    assert a[prefix + c1..] == a[prefix..|a| - suffix][c1..] + a[|a| - suffix..];
    assert b[prefix + c2..] == b[prefix..|b| - suffix][c2..] + b[|b| - suffix..];
  }
}
