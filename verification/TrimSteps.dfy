/**
  One move of the compacting pass on the whole row list: it loses no line of any input, keeps the
  order, and keeps the flags right.
 */
module TrimSteps {
  import opened Lines
  import opened ManualDiffHelp
  import opened Diff3Lines
  import opened TrimRules
  import opened Pairs
  import opened Twins

  /** `LineData::equal` on two lines of the inputs. */
  method SameText(texts: Keys, v: Selector, i: int, w: Selector, j: int) returns (same: bool)
    requires v in {A, B, C} && w in {A, B, C} && v != w
    requires 0 <= i < |texts.Of(v)| && 0 <= j < |texts.Of(w)|
    ensures same <==> AlignerEqual(texts.Of(v)[i], texts.Of(w)[j])
    ensures Tested(same, Blanks(texts), v, i, w, j)
    ensures TestedTrue(same, Blanks(texts), v, i, w, j)
    ensures forall o :: TestedTrue(same, Essences(o, texts), v, i, w, j)
  {
    same := LineDataEqual(texts.Of(v)[i], texts.Of(w)[j]);
    BlanksTellEquality(texts, v, i, w, j);
    if same {
      forall o
        ensures TestedTrue(same, Essences(o, texts), v, i, w, j)
      {
        AlignerEqualIsSameEssence(o, texts.Of(v)[i], texts.Of(w)[j]);
      }
    }
  }

  /** Rows above only gain lines, and rows below stay as they are. */
  ghost predicate OnlyUp(before: seq<Diff3Line>, after: seq<Diff3Line>, line: int) {
    && |after| == |before|
    && (forall k :: 0 <= k < line && k < |after| ==> Gains(before[k], after[k]))
    && (forall k :: 0 <= k && line < k < |after| ==> after[k] == before[k])
  }

  predicate Gains(before: Diff3Line, after: Diff3Line) {
    && (before.Has(A) ==> after.lineA == before.lineA) && (before.Has(B) ==> after.lineB == before.lineB)
    && (before.Has(C) ==> after.lineC == before.lineC)
  }

  /** What every move keeps. */
  ghost predicate Step(before: seq<Diff3Line>, after: seq<Diff3Line>, texts: Keys, line: int) {
    && |after| == |before| && OnlyUp(before, after, line)
    && LinesOf(after, A) == LinesOf(before, A) && LinesOf(after, B) == LinesOf(before, B)
    && LinesOf(after, C) == LinesOf(before, C)
    && InFiles(after, texts)
    && (AllBare(before) ==> AllBare(after))
    && (forall o :: WellFlagged(before, Essences(o, texts), line) ==>
                      WellFlagged(after, Essences(o, texts), line) && PairsKept(before, after))
    && (AllExact(before, Blanks(texts)) ==> AllExact(after, Blanks(texts)))
    && TwinsKept(before, after, texts)
  }

  lemma StepSelf(rows: seq<Diff3Line>, texts: Keys, line: int)
    requires InFiles(rows, texts)
    ensures Step(rows, rows, texts, line)
  {
  }

  lemma StepTrans(a: seq<Diff3Line>, b: seq<Diff3Line>, c: seq<Diff3Line>, texts: Keys, line: int)
    requires Step(a, b, texts, line) && Step(b, c, texts, line)
    ensures Step(a, c, texts, line)
  {
    hide LinesOf, InFiles, WellFlagged, AllExact, TwinsKept, PairCount;
    OnlyUpTrans(a, b, c, line);
    TwinsKeptTrans(a, b, c, texts);
  }

  lemma OnlyUpTrans(a: seq<Diff3Line>, b: seq<Diff3Line>, c: seq<Diff3Line>, line: int)
    requires OnlyUp(a, b, line) && OnlyUp(b, c, line)
    ensures OnlyUp(a, c, line)
  {
    forall k | 0 <= k < line && k < |c|
      ensures Gains(a[k], c[k])
    {
      assert Gains(a[k], b[k]) && Gains(b[k], c[k]);
    }
  }

  /** The two rows after a move of input x. */
  ghost predicate SingleMove(dest: Diff3Line, src: Diff3Line, d: Diff3Line, s: Diff3Line, x: Selector, y: Selector,
                             z: Selector) {
    && d.Line(x) == src.Line(x) && d.Line(y) == dest.Line(y) && d.Line(z) == dest.Line(z)
    && s.Line(x) == INVALID_LINE && s.Line(y) == src.Line(y) && s.Line(z) == src.Line(z)
  }

  ghost predicate PairMove(dest: Diff3Line, src: Diff3Line, d: Diff3Line, s: Diff3Line, x: Selector, y: Selector,
                           z: Selector) {
    && d.Line(x) == src.Line(x) && d.Line(y) == src.Line(y) && d.Line(z) == dest.Line(z)
    && s.Line(x) == INVALID_LINE && s.Line(y) == INVALID_LINE && s.Line(z) == src.Line(z)
  }

  /** Two rows replaced by rows that are as good: the rest follows. */
  lemma StepByRows(before: seq<Diff3Line>, after: seq<Diff3Line>, texts: Keys, to: int, line: int, d: Diff3Line,
                   s: Diff3Line, x: Selector, y: Selector, z: Selector)
    requires Three(x, y, z) && 0 <= to < line < |before| && after == before[to := d][line := s]
    requires InFiles(before, texts)
    requires LinesOf(after, x) == LinesOf(before, x) && LinesOf(after, y) == LinesOf(before, y)
    requires LinesOf(after, z) == LinesOf(before, z)
    requires RowInFiles(d, texts) && RowInFiles(s, texts) && OnlyUp(before, after, line)
    requires Bare(before[to]) ==> Bare(d)
    requires Bare(before[line]) ==> Bare(s)
    requires forall o ::
               Justified(before[to], Essences(o, texts)) && Justified(before[line], Essences(o, texts))
               && Closed(before[line]) ==>
                 Justified(d, Essences(o, texts)) && Justified(s, Essences(o, texts)) && Closed(s)
                 && MoveKeeps(before[to], before[line], d, s)
    requires Exact(before[to], Blanks(texts)) && Exact(before[line], Blanks(texts)) ==>
               Exact(d, Blanks(texts)) && Exact(s, Blanks(texts))
    requires forall p, q, t ::
               Three(p, q, t) && EqualTexts(texts, p, q) && Twin(before[to], p, q, t) && Twin(before[line], p, q, t) ==>
                 Twin(d, p, q, t) && Twin(s, p, q, t)
    ensures Step(before, after, texts, line)
  {
    hide LinesOf, RowInFiles, Justified, Exact, Closed, Essences, Blanks, Twin, EqualTexts, TwinsKept,
         PairsKept, MoveKeeps, OnlyUp;
    TwinsByRows(before, texts, to, line, d, s);
    forall o | WellFlagged(before, Essences(o, texts), line)
      ensures WellFlagged(after, Essences(o, texts), line) && PairsKept(before, after)
    {
      MoveKeepsPairs(before, to, line, d, s);
    }
    if AllExact(before, Blanks(texts)) {
      assert AllExact(after, Blanks(texts));
    }
    assert InFiles(after, texts);
  }

  lemma RowInFilesBy(r: Diff3Line, texts: Keys, x: Selector, y: Selector, z: Selector)
    requires Three(x, y, z)
    ensures RowInFiles(r, texts) <==>
              InFile(r, x, |texts.Of(x)|) && InFile(r, y, |texts.Of(y)|) && InFile(r, z, |texts.Of(z)|)
  {
  }

  /** Setting lines and equality flags leaves the rest of the row alone. */
  lemma BareUntouched(r: Diff3Line, v: Selector, w: Selector, l: int, e: bool)
    ensures Bare(r.SetLine(v, l)) == Bare(r)
    ensures Bare(r.SetEq(v, w, e)) == Bare(r)
  {
  }

  lemma BareAfterMatching(dest: Diff3Line, src: Diff3Line, x: Selector, y: Selector, z: Selector)
    ensures Bare(MatchingDest(dest, src, x, y, z)) == Bare(dest)
    ensures Bare(MatchingSrc(src, x, y, z)) == Bare(src)
  {
    hide Diff3Line.SetLine, Diff3Line.SetEq, Bare;
    var l := src.Line(x);
    var d, s := dest.SetLine(x, l), src.SetLine(x, INVALID_LINE);
    BareUntouched(dest, x, x, l, true);
    BareUntouched(d, x, y, l, true);
    BareUntouched(d.SetEq(x, y, true), x, z, l, true);
    BareUntouched(src, x, x, INVALID_LINE, true);
    BareUntouched(s, x, y, l, false);
    BareUntouched(s.SetEq(x, y, false), x, z, l, false);
  }

  lemma BareAfterUnmatched(dest: Diff3Line, src: Diff3Line, x: Selector, y: Selector, z: Selector, sameY: bool,
                           sameZ: bool)
    ensures Bare(UnmatchedDest(dest, src, x, y, z, sameY, sameZ)) == Bare(dest)
    ensures Bare(UnmatchedSrc(src, x)) == Bare(src)
  {
    hide Diff3Line.SetLine, Diff3Line.SetEq, Bare;
    var l := src.Line(x);
    var d := dest.SetLine(x, l);
    var d1 := if d.Has(y) && sameY then d.SetEq(x, y, true) else d;
    BareUntouched(dest, x, x, l, true);
    BareUntouched(d, x, y, l, true);
    BareUntouched(d1, x, z, l, true);
    BareUntouched(src, x, x, INVALID_LINE, true);
    UnmatchedUnfold(dest, src, x, y, z, sameY, sameZ);
  }

  lemma BareAfterPair(dest: Diff3Line, src: Diff3Line, x: Selector, y: Selector, z: Selector, sameZ: bool)
    ensures Bare(PairDest(dest, src, x, y, z, sameZ)) == Bare(dest)
    ensures Bare(PairSrc(src, x, y)) == Bare(src)
  {
    hide Diff3Line.SetLine, Diff3Line.SetEq, Bare;
    var l, m := src.Line(x), src.Line(y);
    var d1 := dest.SetLine(x, l);
    var d2 := d1.SetLine(y, m);
    var d := d2.SetEq(x, y, true);
    BareUntouched(dest, x, x, l, true);
    BareUntouched(d1, y, y, m, true);
    BareUntouched(d2, x, y, l, true);
    BareUntouched(d, x, z, l, true);
    BareUntouched(d.SetEq(x, z, true), y, z, l, true);
    var s1 := src.SetLine(x, INVALID_LINE);
    BareUntouched(src, x, x, INVALID_LINE, true);
    BareUntouched(s1, y, y, INVALID_LINE, true);
    BareUntouched(s1.SetLine(y, INVALID_LINE), x, y, l, false);
  }

  // ----- the three kinds of moves

  lemma MatchingStep(before: seq<Diff3Line>, texts: Keys, to: int, line: int, x: Selector, y: Selector, z: Selector)
    requires Three(x, y, z) && 0 <= to < line < |before| && InFiles(before, texts) && Room(before, x, to, line)
    requires before[line].Has(x) && before[to].Eq(y, z)
    requires TestedTrue(true, Blanks(texts), x, before[line].Line(x), y, before[to].Line(y))
    requires forall o :: TestedTrue(true, Essences(o, texts), x, before[line].Line(x), y, before[to].Line(y))
    ensures var after := before[to := MatchingDest(before[to], before[line], x, y, z)]
                               [line := MatchingSrc(before[line], x, y, z)];
            && Step(before, after, texts, line) && Room(after, x, to + 1, line + 1)
            && forall p, q, w :: w in {y, z} && Room(before, w, p, q) ==> Room(after, w, p, q)
  {
    hide Diff3Line.SetLine, Diff3Line.SetEq, Diff3Line.Line, Diff3Line.Eq, Justified, Exact, Closed, LinesOf,
         RowInFiles, Essences, Blanks, Bare, Twin, EqualTexts, MoveKeeps;
    var dest, src := before[to], before[line];
    var d, s := MatchingDest(dest, src, x, y, z), MatchingSrc(src, x, y, z);
    MatchingRows(dest, src, x, y, z);
    SingleColumns(before, texts, to, line, d, s, x, y, z);
    BareAfterMatching(dest, src, x, y, z);
    forall o | Justified(dest, Essences(o, texts)) && Justified(src, Essences(o, texts)) && Closed(src)
      ensures Justified(d, Essences(o, texts)) && Justified(s, Essences(o, texts)) && Closed(s)
      ensures MoveKeeps(dest, src, d, s)
    {
      MatchingJustified(dest, src, Essences(o, texts), x, y, z);
    }
    if Exact(dest, Blanks(texts)) && Exact(src, Blanks(texts)) {
      MatchingExact(dest, src, Blanks(texts), x, y, z);
    }
    forall p, q, t | Three(p, q, t) && EqualTexts(texts, p, q) && Twin(dest, p, q, t) && Twin(src, p, q, t)
      ensures Twin(d, p, q, t) && Twin(s, p, q, t)
    {
      MatchingTwin(dest, src, x, y, z, p, q, t);
    }
    StepByRows(before, before[to := d][line := s], texts, to, line, d, s, x, y, z);
  }

  lemma UnmatchedStep(before: seq<Diff3Line>, texts: Keys, to: int, line: int, x: Selector, y: Selector, z: Selector,
                      sameY: bool, sameZ: bool)
    requires Three(x, y, z) && 0 <= to < line < |before| && InFiles(before, texts) && Room(before, x, to, line)
    requires before[line].Has(x) && !before[line].Eq(x, y) && !before[line].Eq(x, z)
    requires before[to].Has(y) ==> Tested(sameY, Blanks(texts), x, before[line].Line(x), y, before[to].Line(y))
    requires before[to].Has(y) ==>
               forall o :: TestedTrue(sameY, Essences(o, texts), x, before[line].Line(x), y, before[to].Line(y))
    requires before[to].Has(z) ==> Tested(sameZ, Blanks(texts), x, before[line].Line(x), z, before[to].Line(z))
    requires before[to].Has(z) ==>
               forall o :: TestedTrue(sameZ, Essences(o, texts), x, before[line].Line(x), z, before[to].Line(z))
    ensures var after := before[to := UnmatchedDest(before[to], before[line], x, y, z, sameY, sameZ)]
                               [line := UnmatchedSrc(before[line], x)];
            && Step(before, after, texts, line) && Room(after, x, to + 1, line + 1)
            && forall p, q, w :: w in {y, z} && Room(before, w, p, q) ==> Room(after, w, p, q)
  {
    hide Diff3Line.SetLine, Diff3Line.SetEq, Diff3Line.Line, Diff3Line.Eq, Justified, Exact, Closed, LinesOf,
         RowInFiles, Essences, Blanks, Bare, Twin, EqualTexts, MoveKeeps;
    var dest, src := before[to], before[line];
    var d, s := UnmatchedDest(dest, src, x, y, z, sameY, sameZ), UnmatchedSrc(src, x);
    UnmatchedRows(dest, src, x, y, z, sameY, sameZ);
    SingleColumns(before, texts, to, line, d, s, x, y, z);
    BareAfterUnmatched(dest, src, x, y, z, sameY, sameZ);
    forall o | Justified(dest, Essences(o, texts)) && Justified(src, Essences(o, texts)) && Closed(src)
      ensures Justified(d, Essences(o, texts)) && Justified(s, Essences(o, texts)) && Closed(s)
      ensures MoveKeeps(dest, src, d, s)
    {
      UnmatchedJustified(dest, src, Essences(o, texts), x, y, z, sameY, sameZ);
    }
    if Exact(dest, Blanks(texts)) && Exact(src, Blanks(texts)) {
      FilesOfBlanks(dest, texts);
      FilesOfBlanks(src, texts);
      UnmatchedExact(dest, src, Blanks(texts), x, y, z, sameY, sameZ);
    }
    forall p, q, t | Three(p, q, t) && EqualTexts(texts, p, q) && Twin(dest, p, q, t) && Twin(src, p, q, t)
      ensures Twin(d, p, q, t) && Twin(s, p, q, t)
    {
      FilesOfBlanks(dest, texts);
      FilesOfBlanks(src, texts);
      EqualTextsInterchange(texts, p, q, t);
      UnmatchedTwin(dest, src, Blanks(texts), x, y, z, sameY, sameZ, p, q, t);
    }
    StepByRows(before, before[to := d][line := s], texts, to, line, d, s, x, y, z);
  }

  lemma PairStep(before: seq<Diff3Line>, texts: Keys, to: int, line: int, x: Selector, y: Selector, z: Selector,
                 sameZ: bool)
    requires Three(x, y, z) && 0 <= to < line < |before| && InFiles(before, texts) && Room(before, x, to, line)
    requires Room(before, y, to, line)
    requires before[line].Has(x) && before[line].Eq(x, y) && (!before[line].Eq(x, z) || !before[line].Eq(y, z))
    requires before[to].Has(z) ==> Tested(sameZ, Blanks(texts), x, before[line].Line(x), z, before[to].Line(z))
    requires before[to].Has(z) ==>
               forall o :: TestedTrue(sameZ, Essences(o, texts), x, before[line].Line(x), z, before[to].Line(z))
    ensures var after := before[to := PairDest(before[to], before[line], x, y, z, sameZ)]
                               [line := PairSrc(before[line], x, y)];
            && Step(before, after, texts, line) && Room(after, x, to + 1, line + 1) && Room(after, y, to + 1, line + 1)
            && forall p, q :: Room(before, z, p, q) ==> Room(after, z, p, q)
  {
    hide Diff3Line.SetLine, Diff3Line.SetEq, Diff3Line.Line, Diff3Line.Eq, Justified, Exact, Closed, LinesOf,
         RowInFiles, Essences, Blanks, Bare, Twin, EqualTexts, MoveKeeps;
    var dest, src := before[to], before[line];
    var d, s := PairDest(dest, src, x, y, z, sameZ), PairSrc(src, x, y);
    PairRows(dest, src, x, y, z, sameZ);
    PairColumns(before, texts, to, line, d, s, x, y, z);
    BareAfterPair(dest, src, x, y, z, sameZ);
    forall o | Justified(dest, Essences(o, texts)) && Justified(src, Essences(o, texts)) && Closed(src)
      ensures Justified(d, Essences(o, texts)) && Justified(s, Essences(o, texts)) && Closed(s)
      ensures MoveKeeps(dest, src, d, s)
    {
      PairJustified(dest, src, Essences(o, texts), x, y, z, sameZ);
    }
    if Exact(dest, Blanks(texts)) && Exact(src, Blanks(texts)) {
      FilesOfBlanks(dest, texts);
      FilesOfBlanks(src, texts);
      PairExact(dest, src, Blanks(texts), x, y, z, sameZ);
    }
    forall p, q, t | Three(p, q, t) && EqualTexts(texts, p, q) && Twin(dest, p, q, t) && Twin(src, p, q, t)
      ensures Twin(d, p, q, t) && Twin(s, p, q, t)
    {
      PairTwin(dest, src, x, y, z, sameZ, p, q, t);
    }
    StepByRows(before, before[to := d][line := s], texts, to, line, d, s, x, y, z);
  }

  lemma GainsBy(before: Diff3Line, after: Diff3Line, x: Selector, y: Selector, z: Selector)
    requires Three(x, y, z) && (before.Has(x) ==> after.Line(x) == before.Line(x))
    requires before.Has(y) ==> after.Line(y) == before.Line(y)
    requires before.Has(z) ==> after.Line(z) == before.Line(z)
    ensures Gains(before, after)
  {
  }

  lemma AllGain(rows: seq<Diff3Line>)
    ensures forall k :: 0 <= k < |rows| ==> Gains(rows[k], rows[k])
  {
  }

  lemma FilesOfBlanks(r: Diff3Line, texts: Keys)
    ensures RowInFiles(r, texts) <==> RowInFiles(r, Blanks(texts))
  {
  }

  lemma SingleColumns(before: seq<Diff3Line>, texts: Keys, to: int, line: int, d: Diff3Line, s: Diff3Line, x: Selector,
                      y: Selector, z: Selector)
    requires Three(x, y, z) && 0 <= to < line < |before| && InFiles(before, texts) && Room(before, x, to, line)
    requires SingleMove(before[to], before[line], d, s, x, y, z)
    ensures RowInFiles(before[to], texts) && RowInFiles(before[line], texts) && RowInFiles(d, texts)
    ensures RowInFiles(s, texts)
    ensures !before[to].Has(x)
    ensures var after := before[to := d][line := s];
            && LinesOf(after, x) == LinesOf(before, x) && LinesOf(after, y) == LinesOf(before, y)
            && LinesOf(after, z) == LinesOf(before, z)
            && Room(after, x, to + 1, line + 1) && OnlyUp(before, after, line)
            && forall p, q, w :: w in {y, z} && Room(before, w, p, q) ==> Room(after, w, p, q)
  {
    hide Diff3Line.Line, RowInFiles, LinesOf, Gains;
    var after := before[to := d][line := s];
    MovedColumn(before, after, x, to, line);
    KeptColumn(before, after, y, to, line);
    KeptColumn(before, after, z, to, line);
    RowInFilesBy(before[to], texts, x, y, z);
    RowInFilesBy(before[line], texts, x, y, z);
    RowInFilesBy(d, texts, x, y, z);
    RowInFilesBy(s, texts, x, y, z);
    GainsBy(before[to], d, x, y, z);
    AllGain(before);
  }

  lemma PairColumns(before: seq<Diff3Line>, texts: Keys, to: int, line: int, d: Diff3Line, s: Diff3Line, x: Selector,
                    y: Selector, z: Selector)
    requires Three(x, y, z) && 0 <= to < line < |before| && InFiles(before, texts) && Room(before, x, to, line)
    requires Room(before, y, to, line)
    requires PairMove(before[to], before[line], d, s, x, y, z)
    ensures RowInFiles(before[to], texts) && RowInFiles(before[line], texts) && RowInFiles(d, texts)
    ensures RowInFiles(s, texts)
    ensures !before[to].Has(x) && !before[to].Has(y)
    ensures var after := before[to := d][line := s];
            && LinesOf(after, x) == LinesOf(before, x) && LinesOf(after, y) == LinesOf(before, y)
            && LinesOf(after, z) == LinesOf(before, z)
            && Room(after, x, to + 1, line + 1) && Room(after, y, to + 1, line + 1) && OnlyUp(before, after, line)
            && forall p, q :: Room(before, z, p, q) ==> Room(after, z, p, q)
  {
    hide Diff3Line.Line, RowInFiles, LinesOf, Gains;
    var after := before[to := d][line := s];
    MovedColumn(before, after, x, to, line);
    MovedColumn(before, after, y, to, line);
    KeptColumn(before, after, z, to, line);
    RowInFilesBy(before[to], texts, x, y, z);
    RowInFilesBy(before[line], texts, x, y, z);
    RowInFilesBy(d, texts, x, y, z);
    RowInFilesBy(s, texts, x, y, z);
    GainsBy(before[to], d, x, y, z);
    AllGain(before);
  }
}
