/**
  The three-way alignment of whole files: compare A with B and A with C, build the rows, correct them
  for the manual alignments and compact them.
 */
module AlignFiles {
  import opened Lines
  import opened Alignment
  import opened DiffLists
  import opened Windows
  import opened Pairs
  import opened ManualDiffHelp
  import opened Diff3Lines
  import opened Twins
  import opened TrimDensity
  import opened RowEdits
  import opened RowMoves
  import opened FirstLines
  import opened TrimRun
  import opened TrimRanges
  import opened Diff3Lists
  import Frontier

  /** The runtime check of the original: the lines of one input are there exactly once and in order. */
  method DebugLineCheck(rows: seq<Diff3Line>, size: nat, w: Selector) returns (passes: bool)
    ensures passes <==> Complete(rows, w, size)
  {
    hide LinesOf;
    var i, k := 0, 0;
    assert rows[..0] == [] && rows[..|rows|] == rows;
    NoLinesOf([], w);
    while k < |rows|
      invariant 0 <= k <= |rows| && 0 <= i && LinesOf(rows[..k], w) == Numbers(0, i)
    {
      assert rows[..k + 1] == rows[..k] + [rows[k]];
      LinesOfAppend(rows[..k], rows[k], w);
      var line := rows[k].Line(w);
      if IsLine(line) {
        if line != i {
          LinesOfSplit(rows, k + 1, w);
          assert LinesOf(rows, w)[i] == line && (size > i ==> Numbers(0, size)[i] == i);
          return false;
        }
        assert Numbers(0, i) + [i] == Numbers(0, i + 1);
        i := i + 1;
      }
      k := k + 1;
    }
    return size == i;
  }

  /**
    The rows of three files carry each line of each input exactly once and in order, each row has a
    line, and a flag is set only for lines that agree in what the differ compares.  Without manual ranges
    a file with the text of A stands beside A in every row, and A stands beside an equal line of B, and of C,
    in as many rows as the differ pairs lines: with `minimal`, as many as any alignment of the two files does.
    With successive ranges inside the files, the first lines of each range that has lines in two inputs only
    share a row.
   */
  method AlignThree(s: Setup, texts: Keys, entries: seq<Entry>) returns (list: Diff3LineList)
    requires s.nbuckets > 0 && |texts.a| + |texts.b| < Frontier.GNULINEREF_MAX
    requires |texts.a| + |texts.c| < Frontier.GNULINEREF_MAX
    requires Ascending(Borders(entries, A, B), 0, 0, |texts.a|, |texts.b|)
    requires Ascending(Borders(entries, A, C), 0, 0, |texts.a|, |texts.c|)
    ensures fresh(list)
    ensures Complete(list.rows, A, |texts.a|) && Complete(list.rows, B, |texts.b|) && Complete(list.rows, C, |texts.c|)
    ensures AllJustified(list.rows, Essences(s.o, texts)) && Occupied(list.rows) && AllBare(list.rows)
    ensures entries == [] ==> Packed(list.rows, |list.rows|)
    ensures entries == [] && EqualTexts(texts, A, B) ==> AllTwins(list.rows, A, B, C)
    ensures entries == [] && EqualTexts(texts, A, C) ==> AllTwins(list.rows, A, C, B)
    ensures entries == [] ==> PairsFound(s, list.rows, Essences(s.o, texts), B)
                              && PairsFound(s, list.rows, Essences(s.o, texts), C)
    ensures Successive(entries) && (forall i :: 0 <= i < |entries| ==> Aligns(entries[i], texts)) ==>
              forall i :: 0 <= i < |entries| && Sides(entries[i]) == 2 ==> Whole(list.rows, entries[i])
    ensures exists t :: AlignedBy(t, s, texts, entries, list.rows)
  {
    hide EssencesOf, Covers, Total1, Total2, Borders, Ascending, Marks1, Marks2, Complete, LinesOf, AllTold, AllDerived,
         AllPlainC, AllBare, WellFlagged, Occupied, AllExact, Packed, Height, OwnRows, EndsEqual, TwinsKept, AllTwins,
         EqualTexts, Unpaired, PairsFound, PairsKept, WindowsDone, Kept, Marked,
         Ranged, Whole, Successive, Trimmed, RemoveEmpty, Ordered, Rearranged, Met, AllThere, ThirdFollowed;
    ghost var keys := Essences(s.o, texts);
    list := new Diff3LineList();
    var ab := RunManualDiff(s, entries, Text, texts.a, Text, texts.b, A, B);
    CoversSane(ab, keys.a, keys.b, 0, 0, |texts.a|, |texts.b|);
    list.CalcDiff3LineListUsingAB(ab, keys);
    var ac := RunManualDiff(s, entries, Text, texts.a, Text, texts.c, A, C);
    CoversSane(ac, keys.a, keys.c, 0, 0, |texts.a|, |texts.c|);
    ghost var first := list.rows;
    ghost var asserted := list.CalcDiff3LineListUsingAC(ac, keys);
    ghost var built := list.rows;
    CompleteSame(first, built, B, |texts.b|);
    if entries == [] && EqualTexts(texts, A, B) {
      EqualStart(s.o, texts, built, B, C, ab, ac);
    }
    if entries == [] && EqualTexts(texts, A, C) {
      EqualStart(s.o, texts, built, C, B, ac, ab);
    }
    if entries == [] {
      PairsBuilt(s, texts, built, B, ab);
      PairsBuilt(s, texts, built, C, ac);
    }
    list.CorrectManualDiffAlignment(entries);
    if Successive(entries) && forall i :: 0 <= i < |entries| ==> Aligns(entries[i], texts) {
      RangesMet(built, list.rows, texts, entries);
    }
    CompleteAfter(first, built, list.rows, texts, keys);
    CompleteInFiles(list.rows, texts);
    ghost var corrected := list.rows;
    list.CalcDiff3LineListTrim(texts, entries);
    AfterTrim(s.o, corrected, list.rows, texts);
    TwinsAfter(corrected, list.rows, texts);
    PairsAfter(s, corrected, list.rows, keys);
    assert AlignedBy(Steps(ab, ac, built, corrected), s, texts, entries, list.rows);
  }

  // ----- manual ranges

  /** The range has lines in two inputs at least, and its first lines lie inside the files. */
  predicate Aligns(e: Entry, texts: Keys) {
    && Sides(e) >= 2 && (IsLine(e.lineA1) ==> 0 <= e.lineA1 < |texts.a|)
    && (IsLine(e.lineB1) ==> 0 <= e.lineB1 < |texts.b|) && (IsLine(e.lineC1) ==> 0 <= e.lineC1 < |texts.c|)
  }

  /** After the correction the first lines of ranges with lines in two inputs share a row. */
  lemma RangesMet(built: seq<Diff3Line>, corrected: seq<Diff3Line>, texts: Keys, entries: seq<Entry>)
    requires Complete(built, A, |texts.a|) && Complete(built, B, |texts.b|) && Complete(built, C, |texts.c|)
    requires Rearranged(built, corrected) && Successive(entries)
    requires forall i :: 0 <= i < |entries| ==> Aligns(entries[i], texts)
    requires Ordered(built) && Successive(entries) ==>
               forall i :: Reached(entries, i) && AllThere(built, entries[i]) ==> Met(corrected, entries[i])
    ensures Ranged(corrected, entries)
    ensures forall i :: 0 <= i < |entries| && Sides(entries[i]) == 2 ==> Whole(corrected, entries[i])
  {
    hide Complete, Ordered, AllThere, Met, Rearranged, Successive, Whole;
    CompleteOrdered(built, |texts.a|, |texts.b|, |texts.c|);
    StillOrdered(built, corrected);
    forall i | 0 <= i < |entries|
      ensures Met(corrected, entries[i])
      ensures Sides(entries[i]) == 2 ==> Whole(corrected, entries[i])
    {
      assert Reached(entries, i) && Aligns(entries[i], texts);
      ThereIfComplete(built, entries[i], |texts.a|, |texts.b|, |texts.c|);
      WholeIfMet(corrected, entries[i]);
    }
  }

  lemma WholeIfMet(rows: seq<Diff3Line>, e: Entry)
    requires Met(rows, e)
    ensures Sides(e) == 2 ==> Whole(rows, e)
  {
    var k :| 0 <= k < |rows| && MetIn(rows[k], e);
    assert Sides(e) == 2 ==> AllOf(rows[k], e);
  }

  // ----- from the files to the rows

  /** The two lists of differences, the rows made from them, and the rows corrected for the manual ranges. */
  datatype Steps = Steps(ab: seq<Diff>, ac: seq<Diff>, built: seq<Diff3Line>, corrected: seq<Diff3Line>)

  /** What the rows come from. */
  ghost predicate AlignedBy(t: Steps, s: Setup, texts: Keys, entries: seq<Entry>, rows: seq<Diff3Line>) {
    var keys, m := Essences(s.o, texts), Manner(Text, Text, s.minimal, s.speedLargeFiles);
    && WindowsDone(t.ab, keys.a, keys.b, Borders(entries, A, B) + [(|texts.a|, |texts.b|)], m)
    && WindowsDone(t.ac, keys.a, keys.c, Borders(entries, A, C) + [(|texts.a|, |texts.c|)], m)
    && Complete(t.built, A, |texts.a|) && Complete(t.built, B, |texts.b|) && Complete(t.built, C, |texts.c|)
    && AllTold(t.built, A, B, Marks1(t.ab), Marks2(t.ab)) && AllTold(t.built, A, C, Marks1(t.ac), Marks2(t.ac))
    && AllDerived(t.built) && Rearranged(t.built, t.corrected) && (entries == [] ==> t.corrected == t.built)
    && rows == RemoveEmpty(Trimmed(Pass(RemoveEmpty(t.corrected), 0, 0, 0), texts, entries, 0, 0))
  }

  /** The lines of A and of another input stand side by side in as many rows as the differ pairs them. */
  ghost predicate PairsFound(s: Setup, rows: seq<Diff3Line>, keys: Keys, w: Selector) {
    && (exists dl :: WindowDone(dl, keys.a, keys.Of(w), Manner(Text, Text, s.minimal, s.speedLargeFiles))
                     && 2 * PairCount(rows, A, w) >= |keys.a| + |keys.Of(w)| - Unpaired(dl))
    && (s.minimal ==> forall cx, cy :: Aligned(keys.a, keys.Of(w), cx, cy) ==>
                          2 * PairCount(rows, A, w) >= |keys.a| + |keys.Of(w)| - Marked(cx) - Marked(cy))
  }

  lemma PairsBuilt(s: Setup, texts: Keys, rows: seq<Diff3Line>, w: Selector, dl: seq<Diff>)
    requires w in {B, C} && Complete(rows, A, |texts.a|) && Sane(dl)
    requires Total1(dl) == |texts.a| && Total2(dl) == |texts.Of(w)|
    requires AllTold(rows, A, w, Marks1(dl), Marks2(dl))
    requires WindowsDone(dl, EssencesOf(s.o, texts.a), EssencesOf(s.o, texts.Of(w)),
                         Borders([], A, w) + [(|texts.a|, |texts.Of(w)|)],
                         Manner(Text, Text, s.minimal, s.speedLargeFiles))
    ensures PairsFound(s, rows, Essences(s.o, texts), w)
  {
    hide EssencesOf, Complete, Marks1, Marks2, Total1, Total2, Unpaired, AllTold, PairCount, WindowsDone, WindowDone,
         Kept, Marked, Sane;
    var a, b := EssencesOf(s.o, texts.a), EssencesOf(s.o, texts.Of(w));
    assert Borders([], A, w) + [(|a|, |b|)] == [(|a|, |b|)];
    var m := Manner(Text, Text, s.minimal, s.speedLargeFiles);
    OneWindow(dl, a, b, m);
    WholeFiles(dl, a, b, m);
    PairsFixed(rows, A, w, dl, |texts.a|);
    assert Essences(s.o, texts).Of(w) == b;
  }

  lemma PairsAfter(s: Setup, before: seq<Diff3Line>, after: seq<Diff3Line>, keys: Keys)
    requires PairsKept(before, after)
    ensures PairsFound(s, before, keys, B) ==> PairsFound(s, after, keys, B)
    ensures PairsFound(s, before, keys, C) ==> PairsFound(s, after, keys, C)
  {
    hide PairCount, WindowDone, Unpaired, Kept, Marked;
  }

  lemma CompleteAfter(first: seq<Diff3Line>, built: seq<Diff3Line>, corrected: seq<Diff3Line>, texts: Keys, keys: Keys)
    requires Complete(first, B, |texts.b|) && LinesOf(built, B) == LinesOf(first, B)
    requires Complete(built, A, |texts.a|) && Complete(built, C, |texts.c|)
    requires WellFlagged(built, keys, 0) && AllBare(built) && Rearranged(built, corrected)
    ensures Complete(corrected, A, |texts.a|) && Complete(corrected, B, |texts.b|) && Complete(corrected, C, |texts.c|)
    ensures WellFlagged(corrected, keys, 0) && AllBare(corrected)
  {
    hide LinesOf, WellFlagged, AllBare;
  }

  lemma AfterTrim(o: Options, corrected: seq<Diff3Line>, trimmed: seq<Diff3Line>, texts: Keys)
    requires Complete(corrected, A, |texts.a|) && Complete(corrected, B, |texts.b|) && Complete(corrected, C, |texts.c|)
    requires LinesOf(trimmed, A) == LinesOf(corrected, A) && LinesOf(trimmed, B) == LinesOf(corrected, B)
    requires LinesOf(trimmed, C) == LinesOf(corrected, C)
    requires WellFlagged(corrected, Essences(o, texts), 0) && AllBare(corrected)
    requires forall p :: WellFlagged(corrected, Essences(p, texts), 0) ==> AllJustified(trimmed, Essences(p, texts))
    requires forall p :: WellFlagged(corrected, Essences(p, texts), 0) && AllBare(corrected) ==> Occupied(trimmed)
    ensures Complete(trimmed, A, |texts.a|) && Complete(trimmed, B, |texts.b|) && Complete(trimmed, C, |texts.c|)
    ensures AllJustified(trimmed, Essences(o, texts)) && Occupied(trimmed)
  {
    hide LinesOf, WellFlagged, AllBare, AllJustified, Occupied;
  }

  /** Equal files leave no line unpaired. */
  lemma EqualStart(o: Options, texts: Keys, rows: seq<Diff3Line>, q: Selector, t: Selector, dl: seq<Diff>,
                   el: seq<Diff>)
    requires Three(A, q, t) && EqualTexts(texts, A, q) && Complete(rows, A, |texts.a|)
    requires Complete(rows, q, |texts.Of(q)|) && AllDerived(rows)
    requires Sane(dl) && Total1(dl) == |texts.a| && Total2(dl) == |texts.Of(q)|
    requires EssencesOf(o, texts.a) == EssencesOf(o, texts.Of(q)) ==> Unpaired(dl) == 0
    requires AllTold(rows, A, q, Marks1(dl), Marks2(dl)) && AllTold(rows, A, t, Marks1(el), Marks2(el))
    ensures AllTwins(rows, A, q, t)
  {
    hide Complete, AllDerived, AllTold, AllTwins, Unpaired, Marks1, Marks2, Total1, Total2;
    EqualEssences(o, texts, A, q);
    MarksLength(dl);
    TwinsStart(rows, |texts.a|, dl, q, t, Marks1(el), Marks2(el));
  }

  lemma TwinsAfter(before: seq<Diff3Line>, after: seq<Diff3Line>, texts: Keys)
    requires TwinsKept(before, after, texts)
    ensures EqualTexts(texts, A, B) && AllTwins(before, A, B, C) ==> AllTwins(after, A, B, C)
    ensures EqualTexts(texts, A, C) && AllTwins(before, A, C, B) ==> AllTwins(after, A, C, B)
  {
    hide AllTwins, EqualTexts;
  }
}
