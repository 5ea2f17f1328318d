/**
  Two inputs with the same text.  The comparison finds no difference between them, so they start out
  side by side, with the same flags; and no move of the compacting pass separates them.
 */
module Twins {
  import opened Lines
  import opened DiffLists
  import opened ManualDiffHelp
  import opened Diff3Lines
  import opened TrimRules
  import opened RowEdits

  /** Inputs p and q have the same line, which counts as equal, and the third input equals both or neither. */
  ghost predicate Twin(r: Diff3Line, p: Selector, q: Selector, t: Selector) {
    && r.Line(p) == r.Line(q) && (r.Has(p) <==> r.Eq(p, q))
    && (r.Eq(p, t) <==> r.Eq(q, t)) && (r.Eq(p, t) ==> r.Has(p) && r.Has(t))
  }

  ghost predicate AllTwins(rows: seq<Diff3Line>, p: Selector, q: Selector, t: Selector) {
    forall k :: 0 <= k < |rows| ==> Twin(rows[k], p, q, t)
  }

  /** Line by line, both texts are the same for the aligner, or both lines are empty. */
  ghost predicate EqualTexts(texts: Keys, p: Selector, q: Selector) {
    && BlanksOf(texts.Of(p)) == BlanksOf(texts.Of(q))
    && forall i :: 0 <= i < |texts.Of(p)| ==> (texts.Of(p)[i] == [] <==> texts.Of(q)[i] == [])
  }

  /** No line of input t tells p and q apart. */
  ghost predicate Interchangeable(keys: Keys, p: Selector, q: Selector, t: Selector) {
    && |keys.Of(p)| == |keys.Of(q)|
    && forall i, j :: 0 <= i < |keys.Of(t)| && 0 <= j < |keys.Of(p)| ==>
                        (keys.Of(t)[i] == keys.Of(p)[j] <==> keys.Of(t)[i] == keys.Of(q)[j])
  }

  lemma EqualTextsInterchange(texts: Keys, p: Selector, q: Selector, t: Selector)
    requires Three(p, q, t) && EqualTexts(texts, p, q)
    ensures Interchangeable(Blanks(texts), p, q, t)
  {
    hide Blanks, Blanked;
    BlanksLength(texts, p);
    BlanksLength(texts, q);
    BlanksLength(texts, t);
    forall i, j | 0 <= i < |texts.Of(t)| && 0 <= j < |texts.Of(p)|
      ensures Blanks(texts).Of(t)[i] == Blanks(texts).Of(p)[j] <==> Blanks(texts).Of(t)[i] == Blanks(texts).Of(q)[j]
    {
      BlanksTellEquality(texts, t, i, p, j);
      BlanksTellEquality(texts, t, i, q, j);
      assert BlanksOf(texts.Of(p))[j] == BlanksOf(texts.Of(q))[j];
    }
  }

  lemma BlanksLength(texts: Keys, w: Selector)
    ensures |Blanks(texts).Of(w)| == |texts.Of(w)|
  {
  }

  /** Inputs with the same text stay together. */
  ghost predicate TwinsKept(before: seq<Diff3Line>, after: seq<Diff3Line>, texts: Keys) {
    forall p, q, t :: Three(p, q, t) && EqualTexts(texts, p, q) && AllTwins(before, p, q, t) ==>
      AllTwins(after, p, q, t)
  }

  // ----- one move

  lemma MatchingTwin(dest: Diff3Line, src: Diff3Line, x: Selector, y: Selector, z: Selector, p: Selector, q: Selector,
                     t: Selector)
    requires Three(x, y, z) && Three(p, q, t) && Twin(dest, p, q, t) && Twin(src, p, q, t)
    requires !dest.Has(x) && src.Has(x) && dest.Eq(y, z)
    ensures Twin(MatchingDest(dest, src, x, y, z), p, q, t) && Twin(MatchingSrc(src, x, y, z), p, q, t)
  {
    hide Diff3Line.SetLine, Diff3Line.SetEq, Diff3Line.Line, Diff3Line.Eq, MatchingDest, MatchingSrc;
    MatchingRows(dest, src, x, y, z);
    EqSymmetric(dest, x, y, z);
    EqSymmetric(src, x, y, z);
    EqSymmetric(MatchingDest(dest, src, x, y, z), x, y, z);
    EqSymmetric(MatchingSrc(src, x, y, z), x, y, z);
  }

  /** The third input compares in the same way with both. */
  lemma UnmatchedTwin(dest: Diff3Line, src: Diff3Line, keys: Keys, x: Selector, y: Selector, z: Selector, sameY: bool,
                      sameZ: bool, p: Selector, q: Selector, t: Selector)
    requires Three(x, y, z) && Three(p, q, t) && Twin(dest, p, q, t) && Twin(src, p, q, t)
    requires Interchangeable(keys, p, q, t)
    requires RowInFiles(dest, keys) && RowInFiles(src, keys)
    requires !dest.Has(x) && src.Has(x) && !src.Eq(x, y) && !src.Eq(x, z)
    requires dest.Has(y) ==> Tested(sameY, keys, x, src.Line(x), y, dest.Line(y))
    requires dest.Has(z) ==> Tested(sameZ, keys, x, src.Line(x), z, dest.Line(z))
    ensures Twin(UnmatchedDest(dest, src, x, y, z, sameY, sameZ), p, q, t) && Twin(UnmatchedSrc(src, x), p, q, t)
  {
    hide Diff3Line.SetLine, Diff3Line.SetEq, Diff3Line.Line, Diff3Line.Eq, UnmatchedDest, UnmatchedSrc, RowInFiles;
    UnmatchedRows(dest, src, x, y, z, sameY, sameZ);
    RowInFilesOf(dest, keys, x, y, z);
    RowInFilesOf(src, keys, x, y, z);
    EqSymmetric(dest, x, y, z);
    EqSymmetric(src, x, y, z);
    EqSymmetric(UnmatchedDest(dest, src, x, y, z, sameY, sameZ), x, y, z);
    EqSymmetric(UnmatchedSrc(src, x), x, y, z);
    assert x == t;
  }

  lemma RowInFilesOf(r: Diff3Line, keys: Keys, x: Selector, y: Selector, z: Selector)
    requires Three(x, y, z) && RowInFiles(r, keys)
    ensures InFile(r, x, |keys.Of(x)|) && InFile(r, y, |keys.Of(y)|) && InFile(r, z, |keys.Of(z)|)
  {
  }

  lemma PairTwin(dest: Diff3Line, src: Diff3Line, x: Selector, y: Selector, z: Selector, sameZ: bool, p: Selector,
                 q: Selector, t: Selector)
    requires Three(x, y, z) && Three(p, q, t) && Twin(dest, p, q, t) && Twin(src, p, q, t)
    requires !dest.Has(x) && !dest.Has(y) && src.Has(x) && src.Eq(x, y) && (!src.Eq(x, z) || !src.Eq(y, z))
    ensures Twin(PairDest(dest, src, x, y, z, sameZ), p, q, t) && Twin(PairSrc(src, x, y), p, q, t)
  {
    hide Diff3Line.SetLine, Diff3Line.SetEq, Diff3Line.Line, Diff3Line.Eq, PairDest, PairSrc;
    PairRows(dest, src, x, y, z, sameZ);
    EqSymmetric(dest, x, y, z);
    EqSymmetric(src, x, y, z);
    EqSymmetric(PairDest(dest, src, x, y, z, sameZ), x, y, z);
    EqSymmetric(PairSrc(src, x, y), x, y, z);
  }

  /** Two rows replaced. */
  lemma TwinsByRows(before: seq<Diff3Line>, texts: Keys, to: int, line: int, d: Diff3Line, s: Diff3Line)
    requires 0 <= to < line < |before|
    requires forall p, q, t ::
               Three(p, q, t) && EqualTexts(texts, p, q) && Twin(before[to], p, q, t) && Twin(before[line], p, q, t) ==>
                 Twin(d, p, q, t) && Twin(s, p, q, t)
    ensures TwinsKept(before, before[to := d][line := s], texts)
  {
    hide Twin, EqualTexts;
  }

  lemma TwinsKeptTrans(a: seq<Diff3Line>, b: seq<Diff3Line>, c: seq<Diff3Line>, texts: Keys)
    requires TwinsKept(a, b, texts) && TwinsKept(b, c, texts)
    ensures TwinsKept(a, c, texts)
  {
    hide AllTwins, EqualTexts;
  }

  lemma TwinsKeptRest(rows: seq<Diff3Line>, texts: Keys)
    ensures TwinsKept(rows, RemoveEmpty(rows), texts)
  {
    hide Twin, EqualTexts;
    RemoveEmptySubset(rows);
  }

  // ----- how the rows start out

  /** A difference list without unpaired lines marks nothing. */
  lemma {:induction false} NothingMarked(dl: seq<Diff>)
    requires Sane(dl) && Unpaired(dl) == 0
    ensures forall k :: 0 <= k < |Marks1(dl)| ==> !Marks1(dl)[k]
    ensures forall k :: 0 <= k < |Marks2(dl)| ==> !Marks2(dl)[k]
  {
    if |dl| > 0 {
      UnpairedNonnegative(dl[1..]);
      NothingMarked(dl[1..]);
    }
  }

  lemma {:induction false} UnpairedNonnegative(dl: seq<Diff>)
    requires Sane(dl)
    ensures Unpaired(dl) >= 0
  {
    if |dl| > 0 {
      UnpairedNonnegative(dl[1..]);
    }
  }

  /** Two columns with lines in the same rows and the same lines in all are the same. */
  lemma {:induction false} SamePresent(c: seq<int>, d: seq<int>, k: int)
    requires |c| == |d| && Present(c) == Present(d) && 0 <= k < |c|
    requires forall j :: 0 <= j < |c| ==> (IsLine(c[j]) <==> IsLine(d[j]))
    ensures c[k] == d[k]
  {
    var cs, ds := Present(c[1..]), Present(d[1..]);
    if IsLine(c[0]) {
      assert ([c[0]] + cs)[1..] == cs && ([d[0]] + ds)[1..] == ds && ([c[0]] + cs)[0] == ([d[0]] + ds)[0];
    } else {
      assert [] + cs == cs && [] + ds == ds;
    }
    if k > 0 {
      SamePresent(c[1..], d[1..], k - 1);
    }
  }

  /** Without unpaired lines every line of A stands beside its equal, and C and B count as equal when both equal A. */
  lemma TwinsStart(rows: seq<Diff3Line>, n: int, dl: seq<Diff>, q: Selector, t: Selector, mA: seq<bool>, mT: seq<bool>)
    requires Three(A, q, t) && Complete(rows, A, n) && Complete(rows, q, n) && AllDerived(rows)
    requires Sane(dl) && Unpaired(dl) == 0 && |Marks1(dl)| == |Marks2(dl)| == n
    requires AllTold(rows, A, q, Marks1(dl), Marks2(dl)) && AllTold(rows, A, t, mA, mT)
    ensures AllTwins(rows, A, q, t)
  {
    hide Diff3Line.Line, Present;
    NothingMarked(dl);
    CompleteInFile(rows, A, n);
    CompleteInFile(rows, q, n);
    forall k | 0 <= k < |rows|
      ensures rows[k].Has(A) == rows[k].Eq(A, q) == rows[k].Has(q)
    {
      assert Told(rows[k], A, q, Marks1(dl), Marks2(dl));
    }
    forall k | 0 <= k < |rows|
      ensures Twin(rows[k], A, q, t)
    {
      SamePresent(Column(rows, A), Column(rows, q), k);
      assert Told(rows[k], A, t, mA, mT) && Derived(rows[k]);
    }
  }

  /** Lines that are equal for the aligner are equal for the differ. */
  lemma EqualEssences(o: Options, texts: Keys, p: Selector, q: Selector)
    requires EqualTexts(texts, p, q)
    ensures EssencesOf(o, texts.Of(p)) == EssencesOf(o, texts.Of(q))
  {
    forall k | 0 <= k < |texts.Of(p)|
      ensures EssencesOf(o, texts.Of(p))[k] == EssencesOf(o, texts.Of(q))[k]
    {
      assert BlanksOf(texts.Of(p))[k] == BlanksOf(texts.Of(q))[k];
      EssenceOfBlanked(o, texts.Of(p)[k]);
      EssenceOfBlanked(o, texts.Of(q)[k]);
    }
  }
}
