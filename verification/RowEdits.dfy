/**
  Adding, filling and inserting rows: what these edits do to the lines of each input and to the flags.
 */
module RowEdits {
  import EditDistance
  import opened Lines
  import opened DiffLists
  import opened ManualDiffHelp
  import opened Diff3Lines

  /** The rows carry the lines 0 to n - 1 of this input, each once and in order. */
  ghost predicate Complete(rows: seq<Diff3Line>, w: Selector, n: int) {
    LinesOf(rows, w) == Numbers(0, n)
  }

  lemma {:induction false} PresentMember(c: seq<int>, k: int)
    requires 0 <= k < |c| && IsLine(c[k])
    ensures c[k] in Present(c)
  {
    if k > 0 {
      PresentMember(c[1..], k - 1);
    }
  }

  /** Each line is on some row. */
  lemma {:induction false} MemberPresent(c: seq<int>, l: int)
    requires l in Present(c)
    ensures exists k :: 0 <= k < |c| && c[k] == l
  {
    if !(IsLine(c[0]) && c[0] == l) {
      MemberPresent(c[1..], l);
      var k :| 0 <= k < |c[1..]| && c[1..][k] == l;
      assert c[k + 1] == l;
    }
  }

  lemma CompleteHas(rows: seq<Diff3Line>, w: Selector, n: int, l: int)
    requires Complete(rows, w, n) && 0 <= l < n
    ensures exists k :: 0 <= k < |rows| && rows[k].Line(w) == l
  {
    hide Diff3Line.Line, Present;
    assert Numbers(0, n)[l] == l;
    MemberPresent(Column(rows, w), l);
    var k :| 0 <= k < |rows| && Column(rows, w)[k] == l;
    assert rows[k].Line(w) == l;
  }

  lemma CompleteInFile(rows: seq<Diff3Line>, w: Selector, n: int)
    requires Complete(rows, w, n)
    ensures forall k :: 0 <= k < |rows| ==> InFile(rows[k], w, n)
  {
    hide Diff3Line.Line, Present;
    forall k | 0 <= k < |rows|
      ensures InFile(rows[k], w, n)
    {
      if rows[k].Has(w) {
        PresentMember(Column(rows, w), k);
      }
    }
  }

  lemma CompleteInFiles(rows: seq<Diff3Line>, keys: Keys)
    requires Complete(rows, A, |keys.a|) && Complete(rows, B, |keys.b|) && Complete(rows, C, |keys.c|)
    ensures InFiles(rows, keys)
  {
    hide Complete, InFile;
    CompleteInFile(rows, A, |keys.a|);
    CompleteInFile(rows, B, |keys.b|);
    CompleteInFile(rows, C, |keys.c|);
  }

  lemma LinesOfAppend(rows: seq<Diff3Line>, r: Diff3Line, w: Selector)
    ensures LinesOf(rows + [r], w) == LinesOf(rows, w) + (if r.Has(w) then [r.Line(w)] else [])
  {
    LinesOfConcat(rows, [r], w);
    LinesOfOne(r, w);
  }

  lemma LinesOfSplit(rows: seq<Diff3Line>, i: int, w: Selector)
    requires 0 <= i <= |rows|
    ensures LinesOf(rows, w) == LinesOf(rows[..i], w) + LinesOf(rows[i..], w)
  {
    assert rows == rows[..i] + rows[i..];
    LinesOfConcat(rows[..i], rows[i..], w);
  }

  lemma NoLinesOf(rows: seq<Diff3Line>, w: Selector)
    requires Room(rows, w, 0, |rows|)
    ensures LinesOf(rows, w) == []
  {
    forall k | 0 <= k < |rows|
      ensures !IsLine(Column(rows, w)[k])
    {
      assert !rows[k].Has(w);
    }
    PresentNone(Column(rows, w));
  }

  // ----- what a difference list says about the flags

  /** The flag of a row tells whether its lines are equal lines of the difference list. */
  ghost predicate Told(r: Diff3Line, v: Selector, w: Selector, mv: seq<bool>, mw: seq<bool>) {
    && (r.Has(v) ==> (r.Eq(v, w) <==> 0 <= r.Line(v) < |mv| && !mv[r.Line(v)]))
    && (r.Has(w) ==> (r.Eq(v, w) <==> 0 <= r.Line(w) < |mw| && !mw[r.Line(w)]))
    && (r.Eq(v, w) ==> r.Has(v) && r.Has(w))
  }

  ghost predicate AllTold(rows: seq<Diff3Line>, v: Selector, w: Selector, mv: seq<bool>, mw: seq<bool>) {
    forall k :: 0 <= k < |rows| ==> Told(rows[k], v, w, mv, mw)
  }

  ghost predicate Sane(dl: seq<Diff>) {
    forall k :: 0 <= k < |dl| ==> 0 <= dl[k].equals && 0 <= dl[k].diff1 && 0 <= dl[k].diff2
  }

  lemma {:induction false} MarksLength(dl: seq<Diff>)
    requires Sane(dl)
    ensures |Marks1(dl)| == Total1(dl) && |Marks2(dl)| == Total2(dl)
  {
    if |dl| > 0 {
      MarksLength(dl[1..]);
    }
  }

  lemma {:induction false} CoversSane<T>(dl: seq<Diff>, a: seq<T>, b: seq<T>, p1: int, p2: int, q1: int, q2: int)
    requires Covers(dl, a, b, p1, p2, q1, q2)
    ensures Sane(dl)
    decreases |dl|
  {
    if |dl| > 0 {
      CoversSane(dl[1..], a, b, p1 + dl[0].equals + dl[0].diff1, p2 + dl[0].equals + dl[0].diff2, q1, q2);
      forall k | 0 <= k < |dl|
        ensures 0 <= dl[k].equals && 0 <= dl[k].diff1 && 0 <= dl[k].diff2
      {
        if k > 0 {
          assert dl[1..][k - 1] == dl[k];
        }
      }
    }
  }

  /** What an entry still contributes to the marks of one side. */
  ghost function Left(equals: int, diff: int, rest: seq<bool>): seq<bool> {
    Repeat(false, equals) + Repeat(true, diff) + rest
  }

  lemma LeftEqual(m: seq<bool>, equals: int, diff: int, rest: seq<bool>)
    requires equals > 0
    ensures m + Left(equals, diff, rest) == (m + [false]) + Left(equals - 1, diff, rest)
  {
    assert Repeat(false, equals) == [false] + Repeat(false, equals - 1);
  }

  lemma LeftDiff(m: seq<bool>, diff: int, rest: seq<bool>)
    requires diff > 0
    ensures m + Left(0, diff, rest) == (m + [true]) + Left(0, diff - 1, rest)
  {
    assert Repeat(true, diff) == [true] + Repeat(true, diff - 1);
  }

  lemma LeftNone(rest: seq<bool>)
    ensures Left(0, 0, rest) == rest
  {
  }

  lemma MarksHead(dl: seq<Diff>)
    requires |dl| > 0
    ensures Marks1(dl) == Left(dl[0].equals, dl[0].diff1, Marks1(dl[1..]))
    ensures Marks2(dl) == Left(dl[0].equals, dl[0].diff2, Marks2(dl[1..]))
  {
  }

  // ----- the first step

  /** The rows built so far, for the lines of A and B whose marks are known. */
  ghost predicate Stage(rows: seq<Diff3Line>, keys: Keys, justified: bool, mA: seq<bool>, mB: seq<bool>) {
    && Complete(rows, A, |mA|) && Complete(rows, B, |mB|) && LinesOf(rows, C) == []
    && AllTold(rows, A, B, mA, mB) && AllPlainC(rows)
    && AllBare(rows) && AllClosed(rows, 0) && (justified ==> AllJustified(rows, keys))
  }

  /** No flag says anything about C. */
  ghost predicate AllPlainC(rows: seq<Diff3Line>) {
    forall k :: 0 <= k < |rows| ==> !rows[k].bAEqC && !rows[k].bBEqC
  }

  lemma StageStart(keys: Keys, justified: bool)
    ensures Stage([], keys, justified, [], [])
  {
  }

  /** One more row, with one more line of A, of B or of both. */
  lemma StageNext(rows: seq<Diff3Line>, keys: Keys, justified: bool, mA: seq<bool>, mB: seq<bool>, r: Diff3Line,
                  mA': seq<bool>, mB': seq<bool>)
    requires Stage(rows, keys, justified, mA, mB)
    requires if r.Has(A) then r.lineA == |mA| && mA' == mA + [!r.bAEqB] else mA' == mA
    requires if r.Has(B) then r.lineB == |mB| && mB' == mB + [!r.bAEqB] else mB' == mB
    requires r.lineC == INVALID_LINE && !r.bAEqC && !r.bBEqC && (r.bAEqB ==> r.Has(A) && r.Has(B))
    requires Bare(r) && (justified ==> Justified(r, keys))
    ensures Stage(rows + [r], keys, justified, mA', mB')
  {
    hide LinesOf, Justified, Bare, Told;
    LinesOfAppend(rows, r, A);
    LinesOfAppend(rows, r, B);
    LinesOfAppend(rows, r, C);
    assert Numbers(0, |mA|) + [|mA|] == Numbers(0, |mA| + 1) && Numbers(0, |mB|) + [|mB|] == Numbers(0, |mB| + 1);
    CompleteInFile(rows, A, |mA|);
    CompleteInFile(rows, B, |mB|);
    forall k | 0 <= k < |rows + [r]|
      ensures Told((rows + [r])[k], A, B, mA', mB')
    {
      if k < |rows| {
        ToldMore(rows[k], A, B, mA, mB, mA', mB');
      } else {
        ToldRow(r, A, B, mA', mB');
      }
    }
  }

  /** Marks of further lines say nothing about the rows so far. */
  lemma ToldMore(r: Diff3Line, v: Selector, w: Selector, mv: seq<bool>, mw: seq<bool>, mv': seq<bool>, mw': seq<bool>)
    requires Told(r, v, w, mv, mw) && InFile(r, v, |mv|) && InFile(r, w, |mw|) && mv <= mv' && mw <= mw'
    ensures Told(r, v, w, mv', mw')
  {
  }

  lemma ToldRow(r: Diff3Line, v: Selector, w: Selector, mv: seq<bool>, mw: seq<bool>)
    requires r.Has(v) ==> 0 <= r.Line(v) < |mv| && mv[r.Line(v)] == !r.Eq(v, w)
    requires r.Has(w) ==> 0 <= r.Line(w) < |mw| && mw[r.Line(w)] == !r.Eq(v, w)
    requires r.Eq(v, w) ==> r.Has(v) && r.Has(w)
    ensures Told(r, v, w, mv, mw)
  {
  }

  lemma RunElements<T>(a: seq<T>, b: seq<T>, p1: int, p2: int, n: int)
    requires EqualRun(a, b, p1, p2, n) && 0 < n
    ensures a[p1] == b[p2] && EqualRun(a, b, p1 + 1, p2 + 1, n - 1)
  {
    var s, t := a[p1..p1 + n], b[p2..p2 + n];
    assert s[0] == a[p1] && t[0] == b[p2];
    assert a[p1 + 1..p1 + n] == s[1..] && b[p2 + 1..p2 + n] == t[1..];
  }

  /** How many rows a difference list asks for. */
  ghost function Height(dl: seq<Diff>): int {
    if |dl| == 0 then 0 else dl[0].equals + EditDistance.Max(dl[0].diff1, dl[0].diff2) + Height(dl[1..])
  }

  lemma HeightHead(dl: seq<Diff>)
    requires |dl| > 0
    ensures Height(dl) == dl[0].equals + EditDistance.Max(dl[0].diff1, dl[0].diff2) + Height(dl[1..])
  {
  }

  lemma CoversHead<T>(dl: seq<Diff>, a: seq<T>, b: seq<T>, p1: int, p2: int, q1: int, q2: int)
    requires Covers(dl, a, b, p1, p2, q1, q2) && |dl| > 0
    ensures EqualRun(a, b, p1, p2, dl[0].equals)
    ensures Covers(dl[1..], a, b, p1 + dl[0].equals + dl[0].diff1, p2 + dl[0].equals + dl[0].diff2, q1, q2)
  {
  }

  lemma NothingLeft()
    ensures Marks1([]) == [] && Marks2([]) == [] && Height([]) == 0 && OwnRows([]) == 0
  {
  }

  lemma EqualRow(keys: Keys, p1: int, p2: int, n: int, r: Diff3Line)
    requires EqualRun(keys.a, keys.b, p1, p2, n) && 0 < n
    requires r == NEW_ROW.(lineA := p1, lineB := p2, bAEqB := true)
    ensures Justified(r, keys) && EqualRun(keys.a, keys.b, p1 + 1, p2 + 1, n - 1)
  {
    RunElements(keys.a, keys.b, p1, p2, n);
  }

  lemma StageDone(rows: seq<Diff3Line>, keys: Keys, justified: bool, mA: seq<bool>, mB: seq<bool>)
    requires Stage(rows, keys, justified, mA, mB)
    ensures Complete(rows, A, |mA|) && Complete(rows, B, |mB|) && LinesOf(rows, C) == []
    ensures AllTold(rows, A, B, mA, mB) && AllPlainC(rows) && AllBare(rows)
    ensures justified ==> WellFlagged(rows, keys, 0)
  {
  }

  // ----- the second step

  /**
    Rows before i3 hold the lines of C met so far and, of A, only lines before `from`; from i3 on the
    rows are the last rows of the original list.
   */
  ghost predicate Filled(orig: seq<Diff3Line>, rows: seq<Diff3Line>, i3: int, n: int, from: int, c: int) {
    && 0 <= i3 <= |rows| && 0 <= from && 0 <= c && |rows| - i3 <= |orig|
    && Complete(rows, A, n) && LinesOf(rows, B) == LinesOf(orig, B)
    && LinesOf(rows[i3..], A) == Numbers(from, n)
    && Complete(rows[..i3], C, c) && Room(rows, C, i3, |rows|)
    && rows[i3..] == orig[|orig| - |rows| + i3..]
  }

  /** A row of a list before the second step: C has no line and no flag. */
  predicate WithoutC(r: Diff3Line) { !r.Has(C) && !r.bAEqC && !r.bBEqC }

  ghost predicate AllWithoutC(rows: seq<Diff3Line>) {
    forall k :: 0 <= k < |rows| ==> WithoutC(rows[k])
  }

  /** B and C count as equal when both count as equal to A. */
  predicate Derived(r: Diff3Line) { r.bBEqC <==> r.bAEqB && r.bAEqC }

  ghost predicate AllDerived(rows: seq<Diff3Line>) {
    forall k :: 0 <= k < |rows| ==> Derived(rows[k])
  }

  /** All that the second step keeps. */
  ghost predicate SecondStage(orig: seq<Diff3Line>, rows: seq<Diff3Line>, i3: int, n: int, from: int, mA: seq<bool>,
                              mC: seq<bool>, keys: Keys, justified: bool) {
    && Filled(orig, rows, i3, n, from, |mC|) && from <= |mA| && AllWithoutC(orig)
    && AllTold(rows, A, C, mA, mC) && AllDerived(rows) && AllBare(rows)
    && (justified ==> AllJustified(rows, keys))
    && (forall m1, m2 :: AllTold(orig, A, B, m1, m2) ==> AllTold(rows, A, B, m1, m2))
  }

  /** While line `from` of A is still to come there is a row; it carries this line or none. */
  lemma NextRow(orig: seq<Diff3Line>, rows: seq<Diff3Line>, i3: int, n: int, from: int, c: int)
    requires Filled(orig, rows, i3, n, from, c) && from < n
    ensures i3 < |rows|
    ensures rows[i3].Has(A) ==> rows[i3].lineA == from
    ensures Filled(orig, rows, i3 + 1, n, if rows[i3].Has(A) then from + 1 else from, c)
  {
    hide Complete, LinesOf;
    if i3 == |rows| {
      NoLinesOf(rows[i3..], A);
      assert false;
    }
    NextLines(rows, i3, n, from);
    assert !rows[i3].Has(C);
    assert rows[..i3 + 1] == rows[..i3] + [rows[i3]];
    CompleteAppend(rows[..i3], rows[i3], c);
    assert rows[i3 + 1..] == rows[i3..][1..] == orig[|orig| - |rows| + i3..][1..];
  }

  /** The first row of the rest holds the next line of A or none. */
  lemma NextLines(rows: seq<Diff3Line>, i3: int, n: int, from: int)
    requires 0 <= i3 < |rows| && LinesOf(rows[i3..], A) == Numbers(from, n) && from < n
    ensures rows[i3].Has(A) ==> rows[i3].lineA == from
    ensures LinesOf(rows[i3 + 1..], A) == Numbers(if rows[i3].Has(A) then from + 1 else from, n)
  {
    hide LinesOf;
    var rest := rows[i3 + 1..];
    assert rows[i3..] == [rows[i3]] + rest;
    LinesOfConcat([rows[i3]], rest, A);
    LinesOfOne(rows[i3], A);
    assert Numbers(from, n)[0] == from && Numbers(from, n)[1..] == Numbers(from + 1, n);
    if rows[i3].Has(A) {
      assert ([rows[i3].Line(A)] + LinesOf(rest, A))[1..] == LinesOf(rest, A);
    }
  }

  lemma CompleteAppend(rows: seq<Diff3Line>, r: Diff3Line, c: int)
    requires Complete(rows, C, c) && 0 <= c && (r.lineC == c || r.lineC == INVALID_LINE)
    ensures Complete(rows + [r], C, if r.Has(C) then c + 1 else c)
  {
    hide LinesOf;
    LinesOfAppend(rows, r, C);
    if r.Has(C) {
      assert Numbers(0, c) + [c] == Numbers(0, c + 1);
    }
  }

  lemma CompleteSame(r: seq<Diff3Line>, s: seq<Diff3Line>, w: Selector, n: int)
    requires LinesOf(r, w) == LinesOf(s, w) && Complete(r, w, n)
    ensures Complete(s, w, n)
  {
  }

  /** Line c of C joins row i3. */
  lemma FillRow(orig: seq<Diff3Line>, rows: seq<Diff3Line>, i3: int, n: int, from: int, c: int, r: Diff3Line)
    requires Filled(orig, rows, i3, n, from, c) && from < n && i3 < |rows| && rows[i3].lineA == from
    requires r.lineA == rows[i3].lineA && r.lineB == rows[i3].lineB && r.lineC == c
    ensures Filled(orig, rows[i3 := r], i3 + 1, n, from + 1, c + 1)
  {
    hide Complete, LinesOf;
    NextRow(orig, rows, i3, n, from, c);
    var after := rows[i3 := r];
    assert after[i3 + 1..] == rows[i3 + 1..] && after[..i3 + 1] == rows[..i3] + [r];
    SameColumn(rows, after, A);
    SameColumn(rows, after, B);
    CompleteSame(rows, after, A, n);
    CompleteAppend(rows[..i3], r, c);
  }

  /** Line c of C gets a row of its own before row i3. */
  lemma InsertRow(orig: seq<Diff3Line>, rows: seq<Diff3Line>, i3: int, n: int, from: int, c: int)
    requires Filled(orig, rows, i3, n, from, c)
    ensures Filled(orig, rows[..i3] + [NEW_ROW.(lineC := c)] + rows[i3..], i3 + 1, n, from, c + 1)
  {
    hide Complete, LinesOf;
    var r := NEW_ROW.(lineC := c);
    var head, after := rows[..i3] + [r], rows[..i3] + [r] + rows[i3..];
    assert after[i3 + 1..] == rows[i3..] && after[..i3 + 1] == head;
    CompleteAppend(rows[..i3], r, c);
    forall w | w in {A, B}
      ensures LinesOf(after, w) == LinesOf(rows, w)
    {
      LinesOfConcat(head, rows[i3..], w);
      LinesOfAppend(rows[..i3], r, w);
      LinesOfSplit(rows, i3, w);
    }
    CompleteSame(rows, after, A, n);
    forall k | i3 + 1 <= k < |after|
      ensures !after[k].Has(C)
    {
      assert after[k] == rows[k - 1];
    }
  }

  lemma FilledDone(orig: seq<Diff3Line>, rows: seq<Diff3Line>, i3: int, n: int, from: int, c: int)
    requires Filled(orig, rows, i3, n, from, c)
    ensures 0 <= i3 <= |rows| && Complete(rows, A, n) && LinesOf(rows, B) == LinesOf(orig, B) && Complete(rows, C, c)
  {
    LinesOfSplit(rows, i3, C);
    NoLinesOf(rows[i3..], C);
  }

  lemma FilledStart(rows: seq<Diff3Line>, n: int)
    requires Complete(rows, A, n) && LinesOf(rows, C) == []
    ensures Filled(rows, rows, 0, n, 0, 0)
  {
    hide Present;
    assert rows[0..] == rows && rows[..0] == [];
    forall k | 0 <= k < |rows|
      ensures !rows[k].Has(C)
    {
      if rows[k].Has(C) {
        PresentMember(Column(rows, C), k);
      }
    }
    NoLinesOf([], C);
  }

  lemma SecondStart(rows: seq<Diff3Line>, n: int, keys: Keys, justified: bool)
    requires Complete(rows, A, n) && LinesOf(rows, C) == [] && AllPlainC(rows) && AllBare(rows)
    requires justified ==> AllJustified(rows, keys)
    ensures SecondStage(rows, rows, 0, n, 0, [], [], keys, justified)
  {
    hide LinesOf, Justified, Bare, Complete;
    FilledStart(rows, n);
    forall k | 0 <= k < |rows|
      ensures WithoutC(rows[k]) && Told(rows[k], A, C, [], [])
    {
      assert !rows[k].Has(C);
    }
  }

  /** Passing a row whose line of A is not asked for. */
  lemma SecondSkip(orig: seq<Diff3Line>, rows: seq<Diff3Line>, i3: int, n: int, from: int, mA: seq<bool>, mC: seq<bool>,
                   keys: Keys, justified: bool)
    requires SecondStage(orig, rows, i3, n, from, mA, mC, keys, justified) && |mA| < n
    ensures i3 < |rows| && (rows[i3].Has(A) ==> rows[i3].lineA == from)
    ensures rows[i3].lineA != |mA| ==>
              SecondStage(orig, rows, i3 + 1, n, if rows[i3].Has(A) then from + 1 else from, mA, mC, keys, justified)
  {
    hide Filled, AllTold, AllJustified, AllBare, AllDerived, AllWithoutC;
    NextRow(orig, rows, i3, n, from, |mC|);
  }

  /** The rows other than i3 hold other lines of A. */
  lemma OnlyRow(orig: seq<Diff3Line>, rows: seq<Diff3Line>, i3: int, n: int, from: int, c: int)
    requires Filled(orig, rows, i3, n, from, c) && from < n && i3 < |rows| && rows[i3].lineA == from
    ensures forall k :: 0 <= k < |rows| && k != i3 ==> rows[k].lineA != from
  {
    hide LinesOf;
    NextRow(orig, rows, i3, n, from, c);
    LinesOfSplit(rows, i3, A);
    Prefix(LinesOf(rows[..i3], A), from, n);
    forall k | 0 <= k < |rows| && k != i3
      ensures rows[k].lineA != from
    {
      if rows[k].lineA != from {
      } else if k < i3 {
        LineListed(rows[..i3], A, k);
      } else {
        LineListed(rows[i3 + 1..], A, k - i3 - 1);
      }
    }
  }

  lemma Prefix(s: seq<int>, from: int, n: int)
    requires s + Numbers(from, n) == Numbers(0, n) && 0 <= from < n
    ensures s == Numbers(0, from)
  {
    var t := s + Numbers(from, n);
    assert forall k :: 0 <= k < |s| ==> s[k] == t[k];
  }

  lemma LineListed(rows: seq<Diff3Line>, w: Selector, k: int)
    requires 0 <= k < |rows| && rows[k].Has(w)
    ensures rows[k].Line(w) in LinesOf(rows, w)
  {
    hide Present, Diff3Line.Line;
    PresentMember(Column(rows, w), k);
  }

  /** Row i3 carries the line of A that equals the next line of C. */
  lemma SecondFill(orig: seq<Diff3Line>, rows: seq<Diff3Line>, i3: int, n: int, from: int, mA: seq<bool>, mC: seq<bool>,
                   keys: Keys, justified: bool, r: Diff3Line)
    requires SecondStage(orig, rows, i3, n, from, mA, mC, keys, justified) && from == |mA| < n && i3 < |rows|
    requires rows[i3].lineA == from
    requires r == rows[i3].(lineC := |mC|, bAEqC := true, bBEqC := rows[i3].bAEqB)
    requires justified ==> |mA| < |keys.a| && |mC| < |keys.c| && keys.a[|mA|] == keys.c[|mC|]
    ensures SecondStage(orig, rows[i3 := r], i3 + 1, n, from + 1, mA + [false], mC + [false], keys, justified)
  {
    hide Filled, AllWithoutC, Justified, Bare, Told, Derived;
    FillRow(orig, rows, i3, n, from, |mC|, r);
    FilledDone(orig, rows, i3, n, from, |mC|);
    OnlyRow(orig, rows, i3, n, from, |mC|);
    FilledRow(rows[i3], keys, justified, |mC|);
    var after := rows[i3 := r];
    CompleteInFile(rows, C, |mC|);
    forall k | 0 <= k < |after|
      ensures Told(after[k], A, C, mA + [false], mC + [false])
    {
      if k == i3 {
        ToldRow(r, A, C, mA + [false], mC + [false]);
      } else {
        ToldOther(rows[k], mA, mC, false, [false]);
      }
    }
    SameToldAB(orig, rows, after, i3);
  }

  lemma SameToldAB(orig: seq<Diff3Line>, rows: seq<Diff3Line>, after: seq<Diff3Line>, i3: int)
    requires 0 <= i3 < |rows| && |after| == |rows| && (forall k :: 0 <= k < |rows| && k != i3 ==> after[k] == rows[k])
    requires after[i3].lineA == rows[i3].lineA && after[i3].lineB == rows[i3].lineB && after[i3].bAEqB == rows[i3].bAEqB
    requires forall m1, m2 :: AllTold(orig, A, B, m1, m2) ==> AllTold(rows, A, B, m1, m2)
    ensures forall m1, m2 :: AllTold(orig, A, B, m1, m2) ==> AllTold(after, A, B, m1, m2)
  {
    forall m1, m2 | AllTold(orig, A, B, m1, m2)
      ensures AllTold(after, A, B, m1, m2)
    {
      assert AllTold(rows, A, B, m1, m2);
      assert Told(rows[i3], A, B, m1, m2);
    }
  }

  /** A mark of the next line of A concerns no other row; `true` concerns none at all. */
  lemma ToldOther(r: Diff3Line, mA: seq<bool>, mC: seq<bool>, b: bool, more: seq<bool>)
    requires Told(r, A, C, mA, mC) && InFile(r, C, |mC|) && (r.lineA != |mA| || b)
    ensures Told(r, A, C, mA + [b], mC + more)
    ensures b ==> Told(r, A, C, mA + [b], mC)
  {
  }

  lemma FilledRow(r: Diff3Line, keys: Keys, justified: bool, lineC: int)
    requires Bare(r) && (justified ==> Justified(r, keys)) && lineC >= 0 && r.Has(A)
    requires justified ==> 0 <= r.lineA < |keys.a| && 0 <= lineC < |keys.c| && keys.a[r.lineA] == keys.c[lineC]
    ensures var s := r.(lineC := lineC, bAEqC := true, bBEqC := r.bAEqB);
            Bare(s) && Derived(s) && (justified ==> Justified(s, keys))
  {
  }

  /** The next line of C equals no line of A. */
  lemma SecondInsert(orig: seq<Diff3Line>, rows: seq<Diff3Line>, i3: int, n: int, from: int, mA: seq<bool>,
                     mC: seq<bool>, keys: Keys, justified: bool)
    requires SecondStage(orig, rows, i3, n, from, mA, mC, keys, justified)
    ensures SecondStage(orig, rows[..i3] + [NEW_ROW.(lineC := |mC|)] + rows[i3..], i3 + 1, n, from, mA, mC + [true],
                        keys, justified)
  {
    hide Filled, AllWithoutC, Justified, Bare, Told, Derived, Diff3Line.Line, Diff3Line.Eq;
    var r := NEW_ROW.(lineC := |mC|);
    NewRowC(|mC|, mA, mC, keys);
    InsertRow(orig, rows, i3, n, from, |mC|);
    FilledDone(orig, rows, i3, n, from, |mC|);
    CompleteInFile(rows, C, |mC|);
    var after := rows[..i3] + [r] + rows[i3..];
    forall k | 0 <= k < |after|
      ensures Told(after[k], A, C, mA, mC + [true]) && Derived(after[k]) && Bare(after[k])
      ensures justified ==> Justified(after[k], keys)
    {
      assert after[k] == if k < i3 then rows[k] else if k == i3 then r else rows[k - 1];
      if k != i3 {
        var p := if k < i3 then k else k - 1;
        ToldC(rows[p], mA, mC);
      }
    }
    forall m1, m2 | AllTold(orig, A, B, m1, m2)
      ensures AllTold(after, A, B, m1, m2)
    {
      assert AllTold(rows, A, B, m1, m2);
      forall k | 0 <= k < |after|
        ensures Told(after[k], A, B, m1, m2)
      {
        assert after[k] == if k < i3 then rows[k] else if k == i3 then r else rows[k - 1];
        NewRowToldAB(r, |mC|, m1, m2);
      }
    }
  }

  lemma NewRowC(c: int, mA: seq<bool>, mC: seq<bool>, keys: Keys)
    requires c == |mC|
    ensures var r := NEW_ROW.(lineC := c);
            Told(r, A, C, mA, mC + [true]) && Derived(r) && Bare(r) && Justified(r, keys)
  {
  }

  lemma NewRowToldAB(r: Diff3Line, c: int, m1: seq<bool>, m2: seq<bool>)
    requires r == NEW_ROW.(lineC := c)
    ensures Told(r, A, B, m1, m2)
  {
  }

  lemma ToldC(r: Diff3Line, mA: seq<bool>, mC: seq<bool>)
    requires Told(r, A, C, mA, mC) && InFile(r, C, |mC|)
    ensures Told(r, A, C, mA, mC + [true])
  {
  }

  /** The next line of A equals no line of C. */
  lemma SecondPass(orig: seq<Diff3Line>, rows: seq<Diff3Line>, i3: int, n: int, from: int, mA: seq<bool>, mC: seq<bool>,
                   keys: Keys, justified: bool)
    requires SecondStage(orig, rows, i3, n, from, mA, mC, keys, justified)
    ensures SecondStage(orig, rows, i3, n, from, mA + [true], mC, keys, justified)
  {
    hide Filled, AllWithoutC, AllJustified, AllBare, AllDerived, Told;
    FilledDone(orig, rows, i3, n, from, |mC|);
    CompleteInFile(rows, C, |mC|);
    forall k | 0 <= k < |rows|
      ensures Told(rows[k], A, C, mA + [true], mC)
    {
      ToldOther(rows[k], mA, mC, true, []);
    }
  }

  lemma {:induction false} SecondPasses(orig: seq<Diff3Line>, rows: seq<Diff3Line>, i3: int, n: int, from: int,
                                        mA: seq<bool>, mC: seq<bool>, keys: Keys, justified: bool, d: int)
    requires SecondStage(orig, rows, i3, n, from, mA, mC, keys, justified) && 0 <= d
    ensures SecondStage(orig, rows, i3, n, from, mA + Repeat(true, d), mC, keys, justified)
    decreases d
  {
    hide SecondStage;
    if d == 0 {
      assert mA + Repeat(true, 0) == mA;
    } else {
      SecondPass(orig, rows, i3, n, from, mA, mC, keys, justified);
      SecondPasses(orig, rows, i3, n, from, mA + [true], mC, keys, justified, d - 1);
      assert (mA + [true]) + Repeat(true, d - 1) == mA + Repeat(true, d);
    }
  }

  lemma SecondDone(orig: seq<Diff3Line>, rows: seq<Diff3Line>, i3: int, n: int, from: int, mA: seq<bool>, mC: seq<bool>,
                   keys: Keys, justified: bool)
    requires SecondStage(orig, rows, i3, n, from, mA, mC, keys, justified)
    ensures Complete(rows, A, n) && LinesOf(rows, B) == LinesOf(orig, B) && Complete(rows, C, |mC|)
    ensures AllTold(rows, A, C, mA, mC) && AllDerived(rows) && AllBare(rows)
    ensures forall m1, m2 :: AllTold(orig, A, B, m1, m2) ==> AllTold(rows, A, B, m1, m2)
    ensures justified ==> WellFlagged(rows, keys, 0)
  {
    hide Filled, Justified, AllBare, AllTold;
    FilledDone(orig, rows, i3, n, from, |mC|);
  }

  /** The lines of the second side that need rows of their own. */
  ghost function OwnRows(dl: seq<Diff>): int {
    if |dl| == 0 then 0 else dl[0].diff2 + OwnRows(dl[1..])
  }

  lemma OwnRowsHead(dl: seq<Diff>)
    requires |dl| > 0
    ensures OwnRows(dl) == dl[0].diff2 + OwnRows(dl[1..])
  {
  }

  /** Entry i of the list and what it leaves. */
  lemma EntryAhead(dl: seq<Diff>, i: int, mA: seq<bool>, keys: Keys, justified: bool, lineA: int, lineC: int)
    requires 0 <= i < |dl| && Sane(dl)
    requires justified ==> Covers(dl[i..], keys.a, keys.c, lineA, lineC, |keys.a|, |keys.c|)
    ensures 0 <= dl[i].equals && 0 <= dl[i].diff1 && 0 <= dl[i].diff2
    ensures Marks1(dl[i..]) == Left(dl[i].equals, dl[i].diff1, Marks1(dl[i + 1..]))
    ensures Marks2(dl[i..]) == Left(dl[i].equals, dl[i].diff2, Marks2(dl[i + 1..]))
    ensures OwnRows(dl[i..]) == dl[i].diff2 + OwnRows(dl[i + 1..])
    ensures |mA| + dl[i].equals + dl[i].diff1 <= |mA + Marks1(dl[i..])|
    ensures justified ==> EqualRun(keys.a, keys.c, lineA, lineC, dl[i].equals)
    ensures justified ==> Covers(dl[i + 1..], keys.a, keys.c, lineA + dl[i].equals + dl[i].diff1,
                                 lineC + dl[i].equals + dl[i].diff2, |keys.a|, |keys.c|)
  {
    hide Marks1, Marks2, OwnRows, Covers, EqualRun, Left;
    assert dl[i..][1..] == dl[i + 1..];
    MarksHead(dl[i..]);
    OwnRowsHead(dl[i..]);
    LeftLength(mA, dl[i].equals, dl[i].diff1, Marks1(dl[i + 1..]));
    if justified {
      CoversHead(dl[i..], keys.a, keys.c, lineA, lineC, |keys.a|, |keys.c|);
    }
  }

  // ----- when the runtime check of the second step holds

  /** The cursor stands at the end of the list and lines of C were appended there. */
  ghost predicate AppendedAtEnd(rows: seq<Diff3Line>, i3: int, mC: seq<bool>) {
    i3 == |rows| && |mC| > 0 && mC[|mC| - 1]
  }

  /**
    The last row of a list holds a line of A that equals a line of C, or there are no rows; and C ends
    with lines that equal no line of A.
   */
  ghost predicate EndsEqual(rows: seq<Diff3Line>, mA: seq<bool>, mC: seq<bool>) {
    && (|rows| > 0 ==> var l := rows[|rows| - 1].lineA; 0 <= l < |mA| && !mA[l])
    && |mC| > 0 && mC[|mC| - 1]
  }

  /** The row before the cursor is the one that was matched last. */
  ghost predicate JustMatched(orig: seq<Diff3Line>, rows: seq<Diff3Line>, i3: int, mA: seq<bool>) {
    var j := |orig| - |rows| + i3;
    0 <= j <= |orig| && (j > 0 ==> 0 <= orig[j - 1].lineA < |mA| && !mA[orig[j - 1].lineA])
  }

  lemma EndReached(orig: seq<Diff3Line>, rows: seq<Diff3Line>, i3: int, n: int, from: int, mA: seq<bool>, mC: seq<bool>,
                   keys: Keys, justified: bool)
    requires SecondStage(orig, rows, i3, n, from, mA, mC, keys, justified) && JustMatched(orig, rows, i3, mA)
    ensures AppendedAtEnd(rows, i3, mC) <==> EndsEqual(orig, mA, mC)
  {
    hide Complete, LinesOf, AllDerived, AllBare, AllJustified;
    if i3 < |rows| {
      var last := rows[|rows| - 1];
      assert last == rows[i3..][|rows| - 1 - i3] == orig[|orig| - 1];
      assert Told(last, A, C, mA, mC) && WithoutC(last);
    }
  }

  lemma JustStarted(rows: seq<Diff3Line>)
    ensures JustMatched(rows, rows, 0, []) && !AppendedAtEnd(rows, 0, [])
  {
  }

  lemma LeftLength(m: seq<bool>, equals: int, diff: int, rest: seq<bool>)
    requires 0 <= equals && 0 <= diff
    ensures |m + Left(equals, diff, rest)| == |m| + equals + diff + |rest|
  {
  }

  lemma LeftPassed(m: seq<bool>, diff: int, rest: seq<bool>)
    requires 0 <= diff
    ensures m + Left(0, diff, rest) == (m + Repeat(true, diff)) + rest
  {
  }

  lemma RunInside<T>(a: seq<T>, b: seq<T>, p1: int, p2: int, n: int)
    requires EqualRun(a, b, p1, p2, n) && 0 < n
    ensures 0 <= p1 < |a| && 0 <= p2 < |b|
  {
  }

  /** At the end of the list no line of A is left. */
  lemma AtEndMeansPassed(orig: seq<Diff3Line>, rows: seq<Diff3Line>, i3: int, n: int, from: int, mA: seq<bool>,
                         mC: seq<bool>, keys: Keys, justified: bool)
    requires SecondStage(orig, rows, i3, n, from, mA, mC, keys, justified)
    ensures i3 == |rows| ==> n <= |mA|
  {
    hide Complete, AllTold, AllDerived, AllBare, AllJustified;
    if i3 == |rows| {
      NoLinesOf(rows[i3..], A);
    }
  }

  lemma MatchedNow(orig: seq<Diff3Line>, rows: seq<Diff3Line>, i3: int, n: int, from: int, mA: seq<bool>, mC: seq<bool>,
                   keys: Keys, justified: bool, r: Diff3Line)
    requires SecondStage(orig, rows, i3, n, from, mA, mC, keys, justified) && 0 <= i3 < |rows| && rows[i3].lineA == |mA|
    ensures JustMatched(orig, rows[i3 := r], i3 + 1, mA + [false])
  {
    hide Complete, LinesOf, AllTold, AllDerived, AllBare, AllJustified;
    assert rows[i3..][0] == rows[i3];
  }

  lemma InsertedBefore(orig: seq<Diff3Line>, rows: seq<Diff3Line>, i3: int, mA: seq<bool>, r: Diff3Line)
    requires JustMatched(orig, rows, i3, mA) && 0 <= i3 <= |rows|
    ensures JustMatched(orig, rows[..i3] + [r] + rows[i3..], i3 + 1, mA)
  {
  }

  lemma PassedKeeps(orig: seq<Diff3Line>, rows: seq<Diff3Line>, i3: int, mA: seq<bool>, more: seq<bool>)
    requires JustMatched(orig, rows, i3, mA)
    ensures JustMatched(orig, rows, i3, mA + more)
  {
  }

  /** One line in A and B, the same line and another one in C: the check fails. */
  lemma CheckFailsAtTheEnd(keys: Keys)
    ensures var dl := [Diff(1, 0, 1)];
            var rows := [NEW_ROW.(lineA := 0, lineB := 0, bAEqB := true)];
            Complete(rows, A, Total1(dl)) && LinesOf(rows, C) == [] && AllPlainC(rows)
              && EndsEqual(rows, Marks1(dl), Marks2(dl))
  {
    var dl := [Diff(1, 0, 1)];
    var rows := [NEW_ROW.(lineA := 0, lineB := 0, bAEqB := true)];
    assert dl[1..] == [];
    MarksHead(dl);
    NothingLeft();
    LinesOfOne(rows[0], A);
    LinesOfOne(rows[0], C);
    assert Marks1(dl) == [false] && Marks2(dl) == [false, true];
  }
}
