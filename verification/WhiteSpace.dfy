/**
  What the flags of a row say about the texts that were compared and displayed, and so which conflicts are
  conflicts in white space.
 */
module WhiteSpace {
  import opened Lines
  import opened ManualDiffHelp
  import opened Diff3Lines
  import opened Diff3Lists
  import opened FineDiffs
  import opened TextComparison

  /** Everything that the flags depend on: the lines as compared and as displayed, and the settings. */
  datatype Basis = Basis(o: Options, compared: Displayed, shown: Displayed, ignoreComments: bool, ignoreWhite: bool)

  /** The line of this input is there and counts as empty. */
  predicate CountsAsEmpty(r: Diff3Line, w: Selector, g: Basis) {
    && r.Has(w) && 0 <= r.Line(w) < |g.shown.Of(w)|
    && g.shown.Of(w)[r.Line(w)].Ignored(g.ignoreComments, g.ignoreWhite)
  }

  /** Two inputs have lines that agree in what is compared, or that both count as empty. */
  ghost predicate Alike(r: Diff3Line, v: Selector, w: Selector, g: Basis) {
    Agree(r, Essences(g.o, g.compared.Texts()), v, w) || (CountsAsEmpty(r, v, g) && CountsAsEmpty(r, w, g))
  }

  /** No text that matters: no line, or a blank one. */
  predicate IsBlank(r: Diff3Line, w: Selector, g: Basis) { NoText(r, w, g.compared.Of(w), g.ignoreComments) }

  predicate AllBlank(r: Diff3Line, three: bool, g: Basis) {
    IsBlank(r, A, g) && IsBlank(r, B, g) && (three ==> IsBlank(r, C, g))
  }

  /** The inputs differ in white space at most. */
  ghost predicate DiffersInWhiteSpace(r: Diff3Line, three: bool, g: Basis) {
    (Alike(r, A, B, g) && (three ==> Alike(r, A, C, g))) || AllBlank(r, three, g)
  }

  /** The flags of the row are right about the texts. */
  ghost predicate Judged(r: Diff3Line, g: Basis) {
    && (r.bAEqB ==> Alike(r, A, B, g)) && (r.bAEqC ==> Alike(r, A, C, g)) && (r.bBEqC ==> Alike(r, B, C, g))
    && (CountsAsEmpty(r, A, g) && CountsAsEmpty(r, B, g) ==> r.bAEqB)
    && (CountsAsEmpty(r, A, g) && CountsAsEmpty(r, C, g) ==> r.bAEqC)
    && (CountsAsEmpty(r, B, g) && CountsAsEmpty(r, C, g) ==> r.bBEqC)
    && (r.bWhiteLineA <==> IsBlank(r, A, g)) && (r.bWhiteLineB <==> IsBlank(r, B, g))
    && (r.bWhiteLineC <==> IsBlank(r, C, g))
  }

  ghost predicate AllJudged(rows: seq<Diff3Line>, g: Basis) {
    forall k :: 0 <= k < |rows| ==> Judged(rows[k], g)
  }

  /** Justified flags are right, and the comparison of the displayed texts and the look for white lines keep them so. */
  lemma JudgedRow(orig: Diff3Line, compared: Diff3Line, r: Diff3Line, g: Basis)
    requires Justified(orig, Essences(g.o, g.compared.Texts())) && LinesAlike(orig, compared)
    requires FlagsAfter(orig, compared, g.shown, {A, B, C}, g.ignoreComments, g.ignoreWhite)
    requires Whitened(compared, r, g.compared.a, g.compared.b, g.compared.c, g.ignoreComments)
    ensures Judged(r, g) && LinesAlike(orig, r)
  {
    hide Essences, LineData.Ignored, LineData.Blank, Displayed.Texts, Keys.Of;
    FlagOf(orig, compared, A, g);
    FlagOf(orig, compared, B, g);
    FlagOf(orig, compared, C, g);
  }

  /** The flag of one pair. */
  lemma FlagOf(orig: Diff3Line, r: Diff3Line, sel: Selector, g: Basis)
    requires sel in {A, B, C} && LinesAlike(orig, r)
    requires FlagsAfter(orig, r, g.shown, {A, B, C}, g.ignoreComments, g.ignoreWhite)
    ensures r.Eq(First(sel), Second(sel)) <==>
              orig.Eq(First(sel), Second(sel))
              || (CountsAsEmpty(r, First(sel), g) && CountsAsEmpty(r, Second(sel), g))
  {
    hide Diff3Line.Line, Diff3Line.Eq, LineData.Ignored, Displayed.Of;
  }

  lemma {:induction false} JudgedRows(orig: seq<Diff3Line>, compared: seq<Diff3Line>, rows: seq<Diff3Line>, g: Basis)
    requires AllJustified(orig, Essences(g.o, g.compared.Texts())) && SameLines(orig, compared)
    requires AllFlags(orig, compared, g.shown, {A, B, C}, g.ignoreComments, g.ignoreWhite) && |rows| == |compared|
    requires forall k :: 0 <= k < |rows| ==>
               Whitened(compared[k], rows[k], g.compared.a, g.compared.b, g.compared.c, g.ignoreComments)
    ensures AllJudged(rows, g) && SameLines(orig, rows)
  {
    hide Justified, LinesAlike, FlagsAfter, Whitened, Judged, Essences;
    forall k | 0 <= k < |rows|
      ensures Judged(rows[k], g) && LinesAlike(orig[k], rows[k])
    {
      JudgedRow(orig[k], compared[k], rows[k], g);
    }
  }
}
