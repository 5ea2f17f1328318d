/**
  Comparing the lines of a row character by character (`Diff3Line::fineDiff`).
 */
module FineDiffs {
  import opened Lines
  import opened DiffLists
  import opened ManualDiffHelp
  import opened Diff3Lines
  import opened CharDiff

  /** A line as it is displayed, with what is known about it. */
  datatype LineData = LineData(text: Line, white: bool, skipable: bool, pureComment: bool) {
    /** The line counts as empty under the given options. */
    predicate Ignored(ignoreComments: bool, ignoreWhite: bool) {
      (ignoreComments && skipable) || (ignoreWhite && white)
    }

    /** The line has no text that matters to the merge. */
    predicate Blank(ignoreComments: bool) { white || (ignoreComments && pureComment) }
  }

  /** How far the search for the next match goes. */
  const MAX_SEARCH_LENGTH := 500

  /** The pair of inputs that a selector stands for: A with B, B with C, C with A. */
  function First(sel: Selector): Selector { sel }

  function Second(sel: Selector): Selector { if sel == A then B else if sel == B then C else A }

  function FineOf(r: Diff3Line, sel: Selector): Option<seq<Diff>> {
    if sel == A then r.fineAB else if sel == B then r.fineBC else r.fineCA
  }

  function WithFine(r: Diff3Line, sel: Selector, fine: Option<seq<Diff>>): Diff3Line {
    if sel == A then r.(fineAB := fine) else if sel == B then r.(fineBC := fine) else r.(fineCA := fine)
  }

  /** The row has lines of both inputs. */
  predicate BothThere(r: Diff3Line, sel: Selector) { r.Has(First(sel)) && r.Has(Second(sel)) }

  /** The line numbers lie within the two files. */
  predicate Within(r: Diff3Line, sel: Selector, v1: seq<LineData>, v2: seq<LineData>) {
    && (r.Has(First(sel)) ==> 0 <= r.Line(First(sel)) < |v1|)
    && (r.Has(Second(sel)) ==> 0 <= r.Line(Second(sel)) < |v2|)
  }

  /** Both lines are there and their texts differ. */
  predicate Differ(r: Diff3Line, sel: Selector, v1: seq<LineData>, v2: seq<LineData>)
    requires Within(r, sel, v1, v2)
  {
    BothThere(r, sel) && v1[r.Line(First(sel))].text != v2[r.Line(Second(sel))].text
  }

  /** Both lines are there with the same text, or both are missing. */
  predicate SameTexts(r: Diff3Line, sel: Selector, v1: seq<LineData>, v2: seq<LineData>)
    requires Within(r, sel, v1, v2)
  {
    r.Has(First(sel)) == r.Has(Second(sel)) && !Differ(r, sel, v1, v2)
  }

  /** The list of differences of the two texts, made fit for display; complete for texts that do not exhaust the cap. */
  ghost predicate FineFor(fine: Option<seq<Diff>>, t1: Line, t2: Line, cap: int) {
    && fine.Some? && (|t1| + |t2| < 3 * cap ==> Covers(fine.value, t1, t2, 0, 0, |t1|, |t2|))
    && exists n, diffs, complete ::
         EndsAfter(t1, t2, MAX_SEARCH_LENGTH, cap, n, diffs, complete) && Optimized(diffs, fine.value)
  }

  /** Both lines are there and count as empty. */
  predicate BothIgnored(r: Diff3Line, sel: Selector, v1: seq<LineData>, v2: seq<LineData>, ignoreComments: bool,
                        ignoreWhite: bool)
    requires Within(r, sel, v1, v2)
  {
    BothThere(r, sel) && v1[r.Line(First(sel))].Ignored(ignoreComments, ignoreWhite)
    && v2[r.Line(Second(sel))].Ignored(ignoreComments, ignoreWhite)
  }

  /** What the comparison does to a row. */
  ghost predicate RowCompared(before: Diff3Line, after: Diff3Line, sel: Selector, v1: seq<LineData>, v2: seq<LineData>,
                              ignoreComments: bool, ignoreWhite: bool, cap: int)
    requires Within(before, sel, v1, v2)
  {
    && after == WithFine(before, sel, FineOf(after, sel)).SetEq(First(sel), Second(sel),
                                                                before.Eq(First(sel), Second(sel))
                                                                || BothIgnored(before, sel, v1, v2, ignoreComments,
                                                                               ignoreWhite))
    && (if Differ(before, sel, v1, v2)
        then FineFor(FineOf(after, sel), v1[before.Line(First(sel))].text, v2[before.Line(Second(sel))].text, cap)
        else FineOf(after, sel) == FineOf(before, sel))
  }

  /** The differences of two texts, made fit for display. */
  method FineList(t1: Line, t2: Line, cap: int) returns (fine: seq<Diff>)
    ensures FineFor(Some(fine), t1, t2, cap)
  {
    hide Covers, Tight, NothingMore, EndsAfter;
    var pDiffList := new DiffList();
    ghost var complete, q1, q2, rounds := pDiffList.CalcDiff(t1, t2, MAX_SEARCH_LENGTH, cap);
    ghost var plain := pDiffList.diffs;
    pDiffList.Optimize();
    RefinedCovers(plain, pDiffList.diffs, t1, t2, 0, 0, q1, q2);
    fine := pDiffList.diffs;
  }

  /** Compares the two lines of a row, if both are there. */
  method FineDiffRow(row: Diff3Line, inBTextsTotalEqual: bool, sel: Selector, v1: seq<LineData>, v2: seq<LineData>,
                     ignoreComments: bool, ignoreWhite: bool, cap: int)
    returns (r: Diff3Line, bTextsTotalEqual: bool)
    requires sel in {A, B, C} && Within(row, sel, v1, v2)
    ensures RowCompared(row, r, sel, v1, v2, ignoreComments, ignoreWhite, cap)
    ensures bTextsTotalEqual <==> inBTextsTotalEqual && SameTexts(row, sel, v1, v2)
  {
    hide FineFor, WithFine, FineOf, Diff3Line.Line, Diff3Line.Eq, Diff3Line.SetEq;
    r, bTextsTotalEqual := row, inBTextsTotalEqual;
    var k1, k2 := row.Line(First(sel)), row.Line(Second(sel));
    Updates(row, sel, FineOf(row, sel));
    if (!IsLine(k1) && IsLine(k2)) || (IsLine(k1) && !IsLine(k2)) {
      bTextsTotalEqual := false;
    }
    if IsLine(k1) && IsLine(k2) {
      if |v1[k1].text| != |v2[k2].text| || v1[k1].text != v2[k2].text {
        bTextsTotalEqual := false;
        var fine := FineList(v1[k1].text, v2[k2].text, cap);
        Updates(row, sel, Some(fine));
        r := WithFine(r, sel, Some(fine));
      }
      if v1[k1].Ignored(ignoreComments, ignoreWhite) && v2[k2].Ignored(ignoreComments, ignoreWhite) {
        r := r.SetEq(First(sel), Second(sel), true);
      }
    }
  }

  /** What setting the list of differences and setting the flag do not touch. */
  lemma Updates(row: Diff3Line, sel: Selector, fine: Option<seq<Diff>>)
    requires sel in {A, B, C}
    ensures var r := WithFine(row, sel, fine);
            && FineOf(r, sel) == fine && FineOf(r.SetEq(First(sel), Second(sel), true), sel) == fine
            && r.SetEq(First(sel), Second(sel), row.Eq(First(sel), Second(sel))) == r
    ensures WithFine(row, sel, FineOf(row, sel)) == row
  {
  }

  /** The comparison leaves the lines and what concerns the other pairs alone. */
  lemma ComparedOnly(before: Diff3Line, after: Diff3Line, sel: Selector, v1: seq<LineData>, v2: seq<LineData>,
                     ignoreComments: bool, ignoreWhite: bool, cap: int)
    requires sel in {A, B, C} && Within(before, sel, v1, v2)
    requires RowCompared(before, after, sel, v1, v2, ignoreComments, ignoreWhite, cap)
    ensures forall w :: after.Line(w) == before.Line(w)
    ensures forall s :: s in {A, B, C} && s != sel ==>
              FineOf(after, s) == FineOf(before, s)
              && after.Eq(First(s), Second(s)) == before.Eq(First(s), Second(s))
    ensures after.Eq(First(sel), Second(sel)) <==>
              before.Eq(First(sel), Second(sel)) || BothIgnored(before, sel, v1, v2, ignoreComments, ignoreWhite)
    ensures FineOf(before, sel).None? ==> (FineOf(after, sel).Some? <==> Differ(before, sel, v1, v2))
  {
    hide FineFor, WithFine, Diff3Line.SetEq, Diff3Line.Eq, Diff3Line.Line, FineOf, BothIgnored;
    var ignored := BothIgnored(before, sel, v1, v2, ignoreComments, ignoreWhite);
    UpdatedOnly(before, sel, FineOf(after, sel), before.Eq(First(sel), Second(sel)) || ignored);
    if Differ(before, sel, v1, v2) {
      FineIsThere(FineOf(after, sel), v1[before.Line(First(sel))].text, v2[before.Line(Second(sel))].text, cap);
    }
  }

  lemma UpdatedOnly(row: Diff3Line, sel: Selector, fine: Option<seq<Diff>>, e: bool)
    requires sel in {A, B, C}
    ensures var r := WithFine(row, sel, fine).SetEq(First(sel), Second(sel), e);
            && (forall w :: r.Line(w) == row.Line(w))
            && (forall s :: s in {A, B, C} && s != sel ==>
                  FineOf(r, s) == FineOf(row, s) && r.Eq(First(s), Second(s)) == row.Eq(First(s), Second(s)))
            && r.Eq(First(sel), Second(sel)) == e
  {
  }

  lemma FineIsThere(fine: Option<seq<Diff>>, t1: Line, t2: Line, cap: int)
    requires FineFor(fine, t1, t2, cap)
    ensures fine.Some?
  {
  }
}
