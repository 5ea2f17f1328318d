/**
  Comparing the texts of all three pairs of inputs, row by row.
 */
module TextComparison {
  import opened Lines
  import opened ManualDiffHelp
  import opened Diff3Lines
  import opened Diff3Lists
  import opened FineDiffs
  import opened MergeRule

  function TextsOf(v: seq<LineData>): (s: seq<Line>)
    ensures |s| == |v| && forall i :: 0 <= i < |v| ==> s[i] == v[i].text
  {
    seq(|v|, i requires 0 <= i < |v| => v[i].text)
  }

  /** The lines of the three inputs as they are displayed. */
  datatype Displayed = Displayed(a: seq<LineData>, b: seq<LineData>, c: seq<LineData>) {
    function Of(w: Selector): seq<LineData> { if w == A then a else if w == B then b else c }

    function Texts(): Keys { Keys(TextsOf(a), TextsOf(b), TextsOf(c)) }
  }

  /** The two inputs have the same in every row: equal lines, or no line. */
  ghost predicate SameEverywhere(rows: seq<Diff3Line>, v: Selector, w: Selector, texts: Keys) {
    forall k :: 0 <= k < |rows| ==> TextOf(rows[k], v, texts) == TextOf(rows[k], w, texts)
  }

  ghost predicate SameLines(before: seq<Diff3Line>, after: seq<Diff3Line>) {
    |after| == |before| && forall k :: 0 <= k < |after| ==> LinesAlike(before[k], after[k])
  }

  ghost predicate LinesAlike(r: Diff3Line, s: Diff3Line) {
    forall w :: s.Line(w) == r.Line(w)
  }

  /** What is known of the fine differences of a row after some of the three comparisons. */
  ghost predicate FineAfter(r: Diff3Line, shown: Displayed, done: set<Selector>) {
    forall sel :: sel in {A, B, C} ==>
                    Within(r, sel, shown.Of(First(sel)), shown.Of(Second(sel)))
                    && (FineOf(r, sel).Some? <==>
                        sel in done && Differ(r, sel, shown.Of(First(sel)), shown.Of(Second(sel))))
  }

  lemma FineStep(before: Diff3Line, after: Diff3Line, sel: Selector, shown: Displayed, done: set<Selector>,
                 ignoreComments: bool, ignoreWhite: bool, cap: int)
    requires sel in {A, B, C} && sel !in done && FineAfter(before, shown, done)
    requires RowCompared(before, after, sel, shown.Of(First(sel)), shown.Of(Second(sel)), ignoreComments, ignoreWhite,
                         cap)
    ensures FineAfter(after, shown, done + {sel}) && LinesAlike(before, after)
  {
    hide RowCompared, FineOf;
    ComparedOnly(before, after, sel, shown.Of(First(sel)), shown.Of(Second(sel)), ignoreComments, ignoreWhite, cap);
  }

  lemma FineDone(r: Diff3Line, shown: Displayed)
    requires FineAfter(r, shown, {A, B, C})
    ensures FineTells(r, shown.Texts())
  {
    assert FineOf(r, A).Some? <==> Differ(r, A, shown.a, shown.b);
    assert FineOf(r, B).Some? <==> Differ(r, B, shown.b, shown.c);
    assert FineOf(r, C).Some? <==> Differ(r, C, shown.c, shown.a);
  }

  lemma FineStart(r: Diff3Line, shown: Displayed)
    requires Bare(r) && RowInFiles(r, shown.Texts())
    ensures FineAfter(r, shown, {})
  {
  }

  lemma SameTextsIs(r: Diff3Line, sel: Selector, shown: Displayed)
    requires sel in {A, B, C} && RowInFiles(r, shown.Texts())
    ensures Within(r, sel, shown.Of(First(sel)), shown.Of(Second(sel)))
    ensures SameTexts(r, sel, shown.Of(First(sel)), shown.Of(Second(sel))) <==>
              TextOf(r, First(sel), shown.Texts()) == TextOf(r, Second(sel), shown.Texts())
  {
  }

  /** Which flags a row has after some of the comparisons: those it had, and those of lines that count as empty. */
  ghost predicate FlagsAfter(orig: Diff3Line, r: Diff3Line, shown: Displayed, done: set<Selector>, ignoreComments: bool,
                             ignoreWhite: bool) {
    forall sel :: sel in {A, B, C} ==>
                    Within(orig, sel, shown.Of(First(sel)), shown.Of(Second(sel)))
                    && (r.Eq(First(sel), Second(sel)) <==>
                        orig.Eq(First(sel), Second(sel))
                        || (sel in done && BothIgnored(orig, sel, shown.Of(First(sel)), shown.Of(Second(sel)),
                                                       ignoreComments, ignoreWhite)))
  }

  ghost predicate AllFlags(orig: seq<Diff3Line>, rows: seq<Diff3Line>, shown: Displayed, done: set<Selector>,
                           ignoreComments: bool, ignoreWhite: bool) {
    |rows| == |orig| && forall k :: 0 <= k < |rows| ==>
                                      FlagsAfter(orig[k], rows[k], shown, done, ignoreComments, ignoreWhite)
  }

  lemma FlagsStart(r: Diff3Line, shown: Displayed, ignoreComments: bool, ignoreWhite: bool)
    requires RowInFiles(r, shown.Texts())
    ensures FlagsAfter(r, r, shown, {}, ignoreComments, ignoreWhite)
  {
  }

  lemma FlagsStep(orig: Diff3Line, before: Diff3Line, after: Diff3Line, sel: Selector, shown: Displayed,
                  done: set<Selector>, ignoreComments: bool, ignoreWhite: bool, cap: int)
    requires sel in {A, B, C} && sel !in done && LinesAlike(orig, before)
    requires FlagsAfter(orig, before, shown, done, ignoreComments, ignoreWhite)
    requires Within(before, sel, shown.Of(First(sel)), shown.Of(Second(sel)))
    requires RowCompared(before, after, sel, shown.Of(First(sel)), shown.Of(Second(sel)), ignoreComments, ignoreWhite,
                         cap)
    ensures FlagsAfter(orig, after, shown, done + {sel}, ignoreComments, ignoreWhite)
  {
    hide RowCompared, FineOf, Displayed.Of, Diff3Line.Line, Diff3Line.Eq, LineData.Ignored;
    ComparedOnly(before, after, sel, shown.Of(First(sel)), shown.Of(Second(sel)), ignoreComments, ignoreWhite, cap);
  }

  /** All rows after some of the comparisons. */
  ghost predicate AllFine(rows: seq<Diff3Line>, shown: Displayed, done: set<Selector>) {
    forall k :: 0 <= k < |rows| ==> FineAfter(rows[k], shown, done)
  }

  /** One of the three comparisons of the texts. */
  method CompareTexts(list: Diff3LineList, sel: Selector, shown: Displayed, ghost orig: seq<Diff3Line>,
                      ghost done: set<Selector>, ignoreComments: bool, ignoreWhite: bool, cap: int)
    returns (equal: bool)
    requires sel in {A, B, C} && sel !in done && AllFine(list.rows, shown, done) && SameLines(orig, list.rows)
    requires InFiles(orig, shown.Texts()) && AllFlags(orig, list.rows, shown, done, ignoreComments, ignoreWhite)
    modifies list
    ensures AllFine(list.rows, shown, done + {sel}) && SameLines(orig, list.rows)
    ensures AllFlags(orig, list.rows, shown, done + {sel}, ignoreComments, ignoreWhite)
    ensures equal <==> SameEverywhere(orig, First(sel), Second(sel), shown.Texts())
  {
    hide FineAfter, RowCompared, Within, SameTexts, LinesAlike, InFile, TextOf, Displayed.Of, Displayed.Texts,
         FlagsAfter;
    ghost var before := list.rows;
    var v1, v2 := shown.Of(First(sel)), shown.Of(Second(sel));
    forall k | 0 <= k < |before|
      ensures Within(before[k], sel, v1, v2)
      ensures SameTexts(before[k], sel, v1, v2) <==>
                TextOf(orig[k], First(sel), shown.Texts()) == TextOf(orig[k], Second(sel), shown.Texts())
    {
      AlikeRows(orig[k], before[k], shown);
      SameTextsIs(before[k], sel, shown);
    }
    equal := list.FineDiff(sel, v1, v2, ignoreComments, ignoreWhite, cap);
    forall k | 0 <= k < |before|
      ensures FineAfter(list.rows[k], shown, done + {sel}) && LinesAlike(orig[k], list.rows[k])
      ensures FlagsAfter(orig[k], list.rows[k], shown, done + {sel}, ignoreComments, ignoreWhite)
    {
      FlagsStep(orig[k], before[k], list.rows[k], sel, shown, done, ignoreComments, ignoreWhite, cap);
      FineStep(before[k], list.rows[k], sel, shown, done, ignoreComments, ignoreWhite, cap);
      AlikeTrans(orig[k], before[k], list.rows[k]);
    }
  }

  lemma AlikeTrans(r: Diff3Line, s: Diff3Line, t: Diff3Line)
    requires LinesAlike(r, s) && LinesAlike(s, t)
    ensures LinesAlike(r, t)
  {
  }

  lemma AlikeRows(r: Diff3Line, s: Diff3Line, shown: Displayed)
    requires LinesAlike(r, s) && RowInFiles(r, shown.Texts())
    ensures RowInFiles(s, shown.Texts()) && forall w :: TextOf(s, w, shown.Texts()) == TextOf(r, w, shown.Texts())
  {
  }

  /** The comparison of all three pairs: the rows keep their lines, and know exactly which texts differ. */
  method CompareAllTexts(list: Diff3LineList, shown: Displayed, ignoreComments: bool, ignoreWhite: bool, cap: int)
    returns (equalAB: bool, equalBC: bool, equalAC: bool)
    requires InFiles(list.rows, shown.Texts()) && AllBare(list.rows)
    modifies list
    ensures SameLines(old(list.rows), list.rows) && InFiles(list.rows, shown.Texts())
    ensures forall k :: 0 <= k < |list.rows| ==> FineTells(list.rows[k], shown.Texts())
    ensures AllFlags(old(list.rows), list.rows, shown, {A, B, C}, ignoreComments, ignoreWhite)
    ensures equalAB <==> SameEverywhere(list.rows, A, B, shown.Texts())
    ensures equalBC <==> SameEverywhere(list.rows, B, C, shown.Texts())
    ensures equalAC <==> SameEverywhere(list.rows, C, A, shown.Texts())
  {
    hide FineAfter, LinesAlike, RowInFiles, TextOf, FineTells, Bare, FlagsAfter;
    ghost var orig := list.rows;
    forall k | 0 <= k < |orig|
      ensures FineAfter(orig[k], shown, {}) && LinesAlike(orig[k], orig[k])
      ensures FlagsAfter(orig[k], orig[k], shown, {}, ignoreComments, ignoreWhite)
    {
      FlagsStart(orig[k], shown, ignoreComments, ignoreWhite);
      FineStart(orig[k], shown);
      AlikeSelf(orig[k]);
    }
    equalAB := CompareTexts(list, A, shown, orig, {}, ignoreComments, ignoreWhite, cap);
    assert {} + {A} == {A} && {A} + {B} == {A, B};
    equalBC := CompareTexts(list, B, shown, orig, {A}, ignoreComments, ignoreWhite, cap);
    equalAC := CompareTexts(list, C, shown, orig, {A, B}, ignoreComments, ignoreWhite, cap);
    assert {A, B} + {C} == {A, B, C};
    forall k | 0 <= k < |list.rows|
      ensures FineTells(list.rows[k], shown.Texts()) && RowInFiles(list.rows[k], shown.Texts())
      ensures forall w :: TextOf(list.rows[k], w, shown.Texts()) == TextOf(orig[k], w, shown.Texts())
    {
      FineDone(list.rows[k], shown);
      AlikeRows(orig[k], list.rows[k], shown);
    }
  }

  lemma AlikeSelf(r: Diff3Line)
    ensures LinesAlike(r, r)
  {
  }
}
