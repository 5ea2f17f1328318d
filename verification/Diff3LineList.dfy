/**
  The list of rows (`Diff3LineList`) and the passes that build and compact it.
 */
module Diff3Lists {
  import EditDistance
  import opened Lines
  import opened DiffLists
  import opened ManualDiffHelp
  import opened Diff3Lines
  import opened TrimRules
  import opened Twins
  import opened TrimSteps
  import opened TrimRun
  import opened TrimRanges
  import opened Pairs
  import opened TrimDensity
  import opened RowEdits
  import opened RowMoves
  import opened FirstLines
  import FineDiffs

  /** The state of the compacting pass at row `line`, compared with the rows it started from. */
  ghost predicate Compacted(before: seq<Diff3Line>, after: seq<Diff3Line>, texts: Keys, line: int) {
    && LinesOf(after, A) == LinesOf(before, A) && LinesOf(after, B) == LinesOf(before, B)
    && LinesOf(after, C) == LinesOf(before, C)
    && InFiles(after, texts)
    && (AllBare(before) ==> AllBare(after))
    && (forall o :: WellFlagged(before, Essences(o, texts), 0) ==>
                      WellFlagged(after, Essences(o, texts), line) && PairsKept(before, after))
    && (AllExact(before, Blanks(texts)) ==> AllExact(after, Blanks(texts)))
    && TwinsKept(before, after, texts)
  }

  lemma CompactedStep(a: seq<Diff3Line>, b: seq<Diff3Line>, c: seq<Diff3Line>, texts: Keys, line: int)
    requires Compacted(a, b, texts, line) && Step(b, c, texts, line)
    ensures Compacted(a, c, texts, line)
  {
    hide LinesOf, InFiles, WellFlagged, AllExact, AllBare, TwinsKept, PairCount;
    TwinsKeptTrans(a, b, c, texts);
  }

  lemma CompactedNext(a: seq<Diff3Line>, b: seq<Diff3Line>, texts: Keys, line: int)
    requires 0 <= line && Compacted(a, b, texts, line)
    ensures Compacted(a, b, texts, line + 1)
  {
    hide LinesOf, InFiles, AllExact, AllBare, AllJustified, TwinsKept, PairsKept;
  }

  lemma CompactedStart(rows: seq<Diff3Line>, texts: Keys)
    requires InFiles(rows, texts)
    ensures Compacted(rows, RemoveEmpty(rows), texts, 0)
  {
    hide LinesOf, RowInFiles, Exact, Justified, Closed, Bare, TwinsKept, PairsKept;
    TwinsKeptRest(rows, texts);
    PairsKeptRest(rows);
    RemoveEmptyKeeps(rows, A);
    RemoveEmptyKeeps(rows, B);
    RemoveEmptyKeeps(rows, C);
    RemoveEmptySubset(rows);
  }

  /** The flags for white lines tell which inputs have no text in the row; nothing else changes. */
  ghost predicate Whitened(before: Diff3Line, after: Diff3Line, pldA: seq<FineDiffs.LineData>,
                           pldB: seq<FineDiffs.LineData>, pldC: seq<FineDiffs.LineData>, ignoreComments: bool) {
    && after == before.(bWhiteLineA := after.bWhiteLineA, bWhiteLineB := after.bWhiteLineB,
                        bWhiteLineC := after.bWhiteLineC)
    && (after.bWhiteLineA <==> NoText(before, A, pldA, ignoreComments))
    && (after.bWhiteLineB <==> NoText(before, B, pldB, ignoreComments))
    && (after.bWhiteLineC <==> NoText(before, C, pldC, ignoreComments))
  }

  lemma WhitenedBy(r: Diff3Line, a: bool, b: bool, c: bool, pldA: seq<FineDiffs.LineData>,
                   pldB: seq<FineDiffs.LineData>, pldC: seq<FineDiffs.LineData>, ignoreComments: bool)
    requires a == NoText(r, A, pldA, ignoreComments) && b == NoText(r, B, pldB, ignoreComments)
    requires c == NoText(r, C, pldC, ignoreComments)
    ensures Whitened(r, r.(bWhiteLineA := a, bWhiteLineB := b, bWhiteLineC := c), pldA, pldB, pldC, ignoreComments)
  {
    hide NoText;
  }

  /** The input has no line in the row, or a blank one. */
  predicate NoText(r: Diff3Line, w: Selector, pld: seq<FineDiffs.LineData>, ignoreComments: bool) {
    r.Has(w) ==> 0 <= r.Line(w) < |pld| && pld[r.Line(w)].Blank(ignoreComments)
  }

  /** Each row has a line of some input. */
  ghost predicate Occupied(rows: seq<Diff3Line>) {
    forall k :: 0 <= k < |rows| ==> rows[k].Has(A) || rows[k].Has(B) || rows[k].Has(C)
  }

  /** Removing the new rows removes all rows without lines, because none of them has a flag left over. */
  lemma NoneLeftOver(rows: seq<Diff3Line>, keys: Keys)
    requires AllJustified(rows, keys) && AllBare(rows)
    ensures Occupied(RemoveEmpty(rows))
  {
    RemoveEmptySubset(rows);
    var rest := RemoveEmpty(rows);
    forall k | 0 <= k < |rest|
      ensures rest[k].Has(A) || rest[k].Has(B) || rest[k].Has(C)
    {
      assert Justified(rest[k], keys) && Bare(rest[k]);
    }
  }

  lemma JustifiedRest(rows: seq<Diff3Line>, keys: Keys)
    requires AllJustified(rows, keys)
    ensures AllJustified(RemoveEmpty(rows), keys)
  {
    hide Justified;
    RemoveEmptySubset(rows);
  }

  lemma CompactedEnd(before: seq<Diff3Line>, rows: seq<Diff3Line>, texts: Keys, line: int)
    requires Compacted(before, rows, texts, line)
    ensures var rest := RemoveEmpty(rows);
            && LinesOf(rest, A) == LinesOf(before, A) && LinesOf(rest, B) == LinesOf(before, B)
            && LinesOf(rest, C) == LinesOf(before, C)
            && InFiles(rest, texts)
            && (forall o :: WellFlagged(before, Essences(o, texts), 0) ==>
                              AllJustified(rest, Essences(o, texts)) && PairsKept(before, rest))
            && (AllBare(before) ==> AllBare(rest))
            && (AllExact(before, Blanks(texts)) ==> AllExact(rest, Blanks(texts)))
            && (forall o :: WellFlagged(before, Essences(o, texts), 0) && AllBare(before) ==> Occupied(rest))
            && (AllExact(before, Blanks(texts)) && AllBare(before) ==> Occupied(rest))
            && TwinsKept(before, rest, texts)
  {
    hide LinesOf, RowInFiles, Exact, Justified, Closed, Bare, Occupied, Essences, Blanks, TwinsKept, PairCount;
    CompactedStart(rows, texts);
    PairsKeptRest(rows);
    TwinsKeptTrans(before, rows, RemoveEmpty(rows), texts);
    forall o | WellFlagged(before, Essences(o, texts), 0)
      ensures AllJustified(RemoveEmpty(rows), Essences(o, texts)) && PairsKept(before, RemoveEmpty(rows))
    {
      JustifiedRest(rows, Essences(o, texts));
    }
    forall o | WellFlagged(before, Essences(o, texts), 0) && AllBare(before)
      ensures Occupied(RemoveEmpty(rows))
    {
      NoneLeftOver(rows, Essences(o, texts));
    }
    if AllExact(before, Blanks(texts)) && AllBare(before) {
      forall k | 0 <= k < |rows|
        ensures Justified(rows[k], Blanks(texts))
      {
        ExactIsJustified(rows[k], Blanks(texts));
      }
      NoneLeftOver(rows, Blanks(texts));
    }
  }

  /** The rows; the passes change the list in place. */
  class Diff3LineList {
    var rows: seq<Diff3Line>

    constructor ()
      ensures rows == []
    {
      rows := [];
    }

    // ----- the first step

    /**
      One row for each pair of equal lines of A and B; lines without counterpart share rows as long as
      both inputs have some.
     */
    method CalcDiff3LineListUsingAB(dl: seq<Diff>, ghost keys: Keys)
      requires rows == [] && Sane(dl)
      modifies this
      ensures Complete(rows, A, Total1(dl)) && Complete(rows, B, Total2(dl)) && LinesOf(rows, C) == []
      ensures AllTold(rows, A, B, Marks1(dl), Marks2(dl)) && AllPlainC(rows) && AllBare(rows)
      ensures |rows| == Height(dl)
      ensures Covers(dl, keys.a, keys.b, 0, 0, |keys.a|, |keys.b|) ==> WellFlagged(rows, keys, 0)
    {
      hide Stage, Marks1, Marks2, Covers, Height, Total1, Total2, Complete, AllTold, AllPlainC, AllBare, WellFlagged,
           LinesOf;
      ghost var justified := Covers(dl, keys.a, keys.b, 0, 0, |keys.a|, |keys.b|);
      ghost var mA: seq<bool>, mB: seq<bool> := [], [];
      var lineA, lineB := 0, 0;
      StageStart(keys, justified);
      MarksLength(dl);
      assert dl[0..] == dl;
      var i := 0;
      while i < |dl|
        invariant 0 <= i <= |dl| && lineA == |mA| && lineB == |mB|
        invariant Stage(rows, keys, justified, mA, mB)
        invariant mA + Marks1(dl[i..]) == Marks1(dl) && mB + Marks2(dl[i..]) == Marks2(dl)
        invariant justified ==> Covers(dl[i..], keys.a, keys.b, lineA, lineB, |keys.a|, |keys.b|)
        invariant |rows| + Height(dl[i..]) == Height(dl)
      {
        assert dl[i..][1..] == dl[i + 1..];
        MarksHead(dl[i..]);
        HeightHead(dl[i..]);
        if justified {
          CoversHead(dl[i..], keys.a, keys.b, lineA, lineB, |keys.a|, |keys.b|);
        }
        lineA, lineB, mA, mB :=
          AddEntry(dl[i], lineA, lineB, keys, justified, mA, mB, Marks1(dl[i + 1..]), Marks2(dl[i + 1..]));
        i := i + 1;
      }
      assert dl[|dl|..] == [];
      NothingLeft();
      assert mA + [] == mA && mB + [] == mB;
      StageDone(rows, keys, justified, mA, mB);
    }

    /** The rows of one entry of the difference list. */
    method AddEntry(d: Diff, a0: int, b0: int, ghost keys: Keys, ghost justified: bool, ghost mA0: seq<bool>,
                    ghost mB0: seq<bool>, ghost restA: seq<bool>, ghost restB: seq<bool>)
      returns (lineA: int, lineB: int, ghost mA: seq<bool>, ghost mB: seq<bool>)
      requires 0 <= d.equals && 0 <= d.diff1 && 0 <= d.diff2 && a0 == |mA0| && b0 == |mB0|
      requires Stage(rows, keys, justified, mA0, mB0)
      requires justified ==> EqualRun(keys.a, keys.b, a0, b0, d.equals)
      modifies this
      ensures lineA == |mA| == a0 + d.equals + d.diff1 && lineB == |mB| == b0 + d.equals + d.diff2
      ensures Stage(rows, keys, justified, mA, mB)
      ensures mA + restA == mA0 + Left(d.equals, d.diff1, restA) && mB + restB == mB0 + Left(d.equals, d.diff2, restB)
      ensures |rows| == |old(rows)| + d.equals + EditDistance.Max(d.diff1, d.diff2)
    {
      hide Stage, Left, EqualRun;
      lineA, lineB, mA, mB := a0, b0, mA0, mB0;
      var equals, diff1, diff2 := d.equals, d.diff1, d.diff2;
      while equals > 0
        invariant 0 <= equals && lineA == |mA| == a0 + d.equals - equals && lineB == |mB| == b0 + d.equals - equals
        invariant Stage(rows, keys, justified, mA, mB) && |rows| == |old(rows)| + d.equals - equals
        invariant mA + Left(equals, diff1, restA) == mA0 + Left(d.equals, d.diff1, restA)
        invariant mB + Left(equals, diff2, restB) == mB0 + Left(d.equals, d.diff2, restB)
        invariant justified ==> EqualRun(keys.a, keys.b, lineA, lineB, equals)
      {
        var d3l := NEW_ROW.(lineA := lineA, lineB := lineB, bAEqB := true);
        if justified {
          EqualRow(keys, lineA, lineB, equals, d3l);
        }
        StageNext(rows, keys, justified, mA, mB, d3l, mA + [false], mB + [false]);
        LeftEqual(mA, equals, diff1, restA);
        LeftEqual(mB, equals, diff2, restB);
        equals := equals - 1;
        lineA, lineB, mA, mB := lineA + 1, lineB + 1, mA + [false], mB + [false];
        rows := rows + [d3l];
      }
      while diff1 > 0 && diff2 > 0
        invariant 0 <= diff1 && 0 <= diff2 && d.diff1 - diff1 == d.diff2 - diff2
        invariant lineA == |mA| == a0 + d.equals + d.diff1 - diff1 && lineB == |mB| == b0 + d.equals + d.diff2 - diff2
        invariant Stage(rows, keys, justified, mA, mB) && |rows| == |old(rows)| + d.equals + d.diff1 - diff1
        invariant mA + Left(0, diff1, restA) == mA0 + Left(d.equals, d.diff1, restA)
        invariant mB + Left(0, diff2, restB) == mB0 + Left(d.equals, d.diff2, restB)
      {
        StageNext(rows, keys, justified, mA, mB, NEW_ROW.(lineA := lineA, lineB := lineB), mA + [true], mB + [true]);
        LeftDiff(mA, diff1, restA);
        LeftDiff(mB, diff2, restB);
        rows := rows + [NEW_ROW.(lineA := lineA, lineB := lineB)];
        diff1, diff2 := diff1 - 1, diff2 - 1;
        lineA, lineB, mA, mB := lineA + 1, lineB + 1, mA + [true], mB + [true];
      }
      while diff1 > 0
        invariant 0 <= diff1 && 0 <= diff2 && (diff1 == 0 || diff2 == 0) && d.diff1 - diff1 >= d.diff2 - diff2
        invariant lineA == |mA| == a0 + d.equals + d.diff1 - diff1 && lineB == |mB| == b0 + d.equals + d.diff2 - diff2
        invariant Stage(rows, keys, justified, mA, mB) && |rows| == |old(rows)| + d.equals + d.diff1 - diff1
        invariant mA + Left(0, diff1, restA) == mA0 + Left(d.equals, d.diff1, restA)
        invariant mB + Left(0, diff2, restB) == mB0 + Left(d.equals, d.diff2, restB)
      {
        StageNext(rows, keys, justified, mA, mB, NEW_ROW.(lineA := lineA), mA + [true], mB);
        LeftDiff(mA, diff1, restA);
        rows := rows + [NEW_ROW.(lineA := lineA)];
        diff1 := diff1 - 1;
        lineA, mA := lineA + 1, mA + [true];
      }
      ghost var before := diff2;
      while diff2 > 0
        invariant 0 <= diff2 <= before && diff1 == 0
        invariant lineA == |mA| == a0 + d.equals + d.diff1 && lineB == |mB| == b0 + d.equals + d.diff2 - diff2
        invariant Stage(rows, keys, justified, mA, mB) && |rows| == |old(rows)| + d.equals + d.diff1 + before - diff2
        invariant mA + Left(0, 0, restA) == mA0 + Left(d.equals, d.diff1, restA)
        invariant mB + Left(0, diff2, restB) == mB0 + Left(d.equals, d.diff2, restB)
      {
        StageNext(rows, keys, justified, mA, mB, NEW_ROW.(lineB := lineB), mA, mB + [true]);
        LeftDiff(mB, diff2, restB);
        rows := rows + [NEW_ROW.(lineB := lineB)];
        diff2 := diff2 - 1;
        lineB, mB := lineB + 1, mB + [true];
      }
      LeftNone(restA);
      LeftNone(restB);
    }

    // ----- the second step

    /**
      Adds the lines of C: a line that equals a line of A joins its row, every other line gets a row of
      its own.  The cursor finds the row of each such line of A before it reaches the end of the list.
      The runtime check behind each equal run is reported as `asserted`.
     */
    method CalcDiff3LineListUsingAC(dl: seq<Diff>, ghost keys: Keys) returns (ghost asserted: bool)
      requires Sane(dl) && Complete(rows, A, Total1(dl)) && LinesOf(rows, C) == [] && AllPlainC(rows) && AllBare(rows)
      modifies this
      ensures Complete(rows, A, Total1(dl)) && LinesOf(rows, B) == LinesOf(old(rows), B)
      ensures Complete(rows, C, Total2(dl))
      ensures AllTold(rows, A, C, Marks1(dl), Marks2(dl)) && AllDerived(rows) && AllBare(rows)
      ensures forall m1, m2 :: AllTold(old(rows), A, B, m1, m2) ==> AllTold(rows, A, B, m1, m2)
      ensures WellFlagged(old(rows), keys, 0) && Covers(dl, keys.a, keys.c, 0, 0, |keys.a|, |keys.c|) ==>
                WellFlagged(rows, keys, 0)
      ensures |rows| == |old(rows)| + OwnRows(dl)
      ensures asserted <==> !EndsEqual(old(rows), Marks1(dl), Marks2(dl))
    {
      hide OwnRows, SecondStage, Marks1, Marks2, Covers, Total1, Total2, JustMatched, AppendedAtEnd, EndsEqual;
      ghost var orig := rows;
      ghost var justified := WellFlagged(rows, keys, 0) && Covers(dl, keys.a, keys.c, 0, 0, |keys.a|, |keys.c|);
      ghost var mA: seq<bool>, mC: seq<bool>, from := [], [], 0;
      ghost var n := Total1(dl);
      var i3, lineA, lineC := 0, 0, 0;
      asserted := true;
      SecondStart(rows, n, keys, justified);
      JustStarted(orig);
      MarksLength(dl);
      assert dl[0..] == dl;
      var i := 0;
      while i < |dl|
        invariant 0 <= i <= |dl| && lineA == |mA| && lineC == |mC| && 0 <= i3 <= |rows|
        invariant SecondStage(orig, rows, i3, n, from, mA, mC, keys, justified) && JustMatched(orig, rows, i3, mA)
        invariant mA + Marks1(dl[i..]) == Marks1(dl) && mC + Marks2(dl[i..]) == Marks2(dl)
        invariant justified ==> Covers(dl[i..], keys.a, keys.c, lineA, lineC, |keys.a|, |keys.c|)
        invariant asserted <==> !AppendedAtEnd(rows, i3, mC)
        invariant |rows| + OwnRows(dl[i..]) == |orig| + OwnRows(dl)
      {
        EntryAhead(dl, i, mA, keys, justified, lineA, lineC);
        i3, lineA, lineC, from, mA, mC, asserted :=
          AddEntryC(dl[i], i3, lineA, lineC, orig, n, from, mA, mC, keys, justified, asserted, Marks1(dl[i + 1..]),
                    Marks2(dl[i + 1..]));
        i := i + 1;
      }
      assert dl[|dl|..] == [];
      NothingLeft();
      assert mA + [] == mA && mC + [] == mC;
      SecondDone(orig, rows, i3, n, from, mA, mC, keys, justified);
      EndReached(orig, rows, i3, n, from, mA, mC, keys, justified);
    }

    /** The lines of C of one entry of the difference list. */
    method AddEntryC(d: Diff, i0: int, a0: int, c0: int, ghost orig: seq<Diff3Line>, ghost n: int, ghost from0: int,
                     ghost mA0: seq<bool>, ghost mC0: seq<bool>, ghost keys: Keys, ghost justified: bool,
                     ghost asserted0: bool, ghost restA: seq<bool>, ghost restC: seq<bool>)
      returns (i3: int, lineA: int, lineC: int, ghost from: int, ghost mA: seq<bool>, ghost mC: seq<bool>,
               ghost asserted: bool)
      requires 0 <= d.equals && 0 <= d.diff1 && 0 <= d.diff2 && a0 == |mA0| && c0 == |mC0| && 0 <= i0 <= |rows|
      requires a0 + d.equals + d.diff1 <= n
      requires SecondStage(orig, rows, i0, n, from0, mA0, mC0, keys, justified) && JustMatched(orig, rows, i0, mA0)
      requires justified ==> EqualRun(keys.a, keys.c, a0, c0, d.equals)
      requires asserted0 <==> !AppendedAtEnd(rows, i0, mC0)
      modifies this
      ensures lineA == |mA| && lineC == |mC| && 0 <= i3 <= |rows|
      ensures SecondStage(orig, rows, i3, n, from, mA, mC, keys, justified) && JustMatched(orig, rows, i3, mA)
      ensures mA + restA == mA0 + Left(d.equals, d.diff1, restA) && mC + restC == mC0 + Left(d.equals, d.diff2, restC)
      ensures justified ==> lineA == a0 + d.equals + d.diff1 && lineC == c0 + d.equals + d.diff2
      ensures |rows| == |old(rows)| + d.diff2
      ensures asserted <==> !AppendedAtEnd(rows, i3, mC)
    {
      hide SecondStage, Left, EqualRun, JustMatched, AppendedAtEnd;
      i3, lineA, lineC, from, mA, mC :=
        AddEqualsC(d, i0, a0, c0, orig, n, from0, mA0, mC0, keys, justified, asserted0, restA, restC);
      i3, lineA, lineC, mA, mC, asserted :=
        AddOthersC(d, i3, lineA, lineC, orig, n, from, mA, mC, keys, justified, asserted0, restA, restC);
    }

    /** The equal lines: each line of C joins the row of its line of A. */
    method AddEqualsC(d: Diff, i0: int, a0: int, c0: int, ghost orig: seq<Diff3Line>, ghost n: int, ghost from0: int,
                      ghost mA0: seq<bool>, ghost mC0: seq<bool>, ghost keys: Keys, ghost justified: bool,
                      ghost asserted0: bool, ghost restA: seq<bool>, ghost restC: seq<bool>)
      returns (i3: int, lineA: int, lineC: int, ghost from: int, ghost mA: seq<bool>, ghost mC: seq<bool>)
      requires 0 <= d.equals && 0 <= d.diff1 && 0 <= d.diff2 && a0 == |mA0| && c0 == |mC0| && 0 <= i0 <= |rows|
      requires a0 + d.equals + d.diff1 <= n
      requires SecondStage(orig, rows, i0, n, from0, mA0, mC0, keys, justified) && JustMatched(orig, rows, i0, mA0)
      requires justified ==> EqualRun(keys.a, keys.c, a0, c0, d.equals)
      requires asserted0 <==> !AppendedAtEnd(rows, i0, mC0)
      modifies this
      ensures lineA == |mA| == a0 + d.equals && lineC == |mC| == c0 + d.equals && 0 <= i3 <= |rows| == |old(rows)|
      ensures SecondStage(orig, rows, i3, n, from, mA, mC, keys, justified) && JustMatched(orig, rows, i3, mA)
      ensures mA + Left(0, d.diff1, restA) == mA0 + Left(d.equals, d.diff1, restA)
      ensures mC + Left(0, d.diff2, restC) == mC0 + Left(d.equals, d.diff2, restC)
      ensures asserted0 <==> !AppendedAtEnd(rows, i3, mC)
    {
      hide SecondStage, Left, EqualRun, JustMatched;
      i3, lineA, lineC, from, mA, mC := i0, a0, c0, from0, mA0, mC0;
      var equals := d.equals;
      while equals > 0
        invariant 0 <= equals && lineA == |mA| == a0 + d.equals - equals && lineC == |mC| == c0 + d.equals - equals
        invariant 0 <= i3 <= |rows|
        invariant SecondStage(orig, rows, i3, n, from, mA, mC, keys, justified) && JustMatched(orig, rows, i3, mA)
        invariant mA + Left(equals, d.diff1, restA) == mA0 + Left(d.equals, d.diff1, restA)
        invariant mC + Left(equals, d.diff2, restC) == mC0 + Left(d.equals, d.diff2, restC)
        invariant justified ==> EqualRun(keys.a, keys.c, lineA, lineC, equals)
        invariant asserted0 <==> !AppendedAtEnd(rows, i3, mC)
        invariant |rows| == |old(rows)|
      {
        AtEndMeansPassed(orig, rows, i3, n, from, mA, mC, keys, justified);
        i3, from := FindRow(i3, lineA, orig, n, from, mA, mC, keys, justified);
        var r := rows[i3].(lineC := lineC, bAEqC := true, bBEqC := rows[i3].bAEqB);
        if justified {
          RunElements(keys.a, keys.c, lineA, lineC, equals);
          RunInside(keys.a, keys.c, lineA, lineC, equals);
        }
        SecondFill(orig, rows, i3, n, from, mA, mC, keys, justified, r);
        MatchedNow(orig, rows, i3, n, from, mA, mC, keys, justified, r);
        LeftEqual(mA, equals, d.diff1, restA);
        LeftEqual(mC, equals, d.diff2, restC);
        rows := rows[i3 := r];
        equals := equals - 1;
        lineA, lineC, from, mA, mC := lineA + 1, lineC + 1, from + 1, mA + [false], mC + [false];
        i3 := i3 + 1;
      }
    }

    /** The other lines: each line of C gets a row of its own, the lines of A are passed. */
    method AddOthersC(d: Diff, i0: int, a0: int, c0: int, ghost orig: seq<Diff3Line>, ghost n: int, ghost from: int,
                      ghost mA0: seq<bool>, ghost mC0: seq<bool>, ghost keys: Keys, ghost justified: bool,
                      ghost asserted0: bool, ghost restA: seq<bool>, ghost restC: seq<bool>)
      returns (i3: int, lineA: int, lineC: int, ghost mA: seq<bool>, ghost mC: seq<bool>, ghost asserted: bool)
      requires 0 <= d.diff1 && 0 <= d.diff2 && a0 == |mA0| && c0 == |mC0| && 0 <= i0 <= |rows| && a0 + d.diff1 <= n
      requires SecondStage(orig, rows, i0, n, from, mA0, mC0, keys, justified) && JustMatched(orig, rows, i0, mA0)
      requires asserted0 <==> !AppendedAtEnd(rows, i0, mC0)
      modifies this
      ensures lineA == |mA| == a0 + d.diff1 && lineC == |mC| == c0 + d.diff2 && 0 <= i3 <= |rows|
      ensures SecondStage(orig, rows, i3, n, from, mA, mC, keys, justified) && JustMatched(orig, rows, i3, mA)
      ensures mA + restA == mA0 + Left(0, d.diff1, restA) && mC + restC == mC0 + Left(0, d.diff2, restC)
      ensures |rows| == |old(rows)| + d.diff2
      ensures asserted <==> !AppendedAtEnd(rows, i3, mC)
    {
      hide SecondStage, Left, JustMatched;
      i3, lineA, lineC, mA, mC := i0, a0, c0, mA0, mC0;
      var diff1, diff2 := d.diff1, d.diff2;
      AtEndMeansPassed(orig, rows, i3, n, from, mA, mC, keys, justified);
      asserted := asserted0 && (i3 != |rows| || (diff1 == 0 && diff2 == 0));
      while diff1 > 0 && diff2 > 0
        invariant 0 <= diff1 && 0 <= diff2 && d.diff1 - diff1 == d.diff2 - diff2 && 0 <= i3 <= |rows|
        invariant lineA == |mA| == a0 + d.diff1 - diff1 && lineC == |mC| == c0 + d.diff2 - diff2
        invariant SecondStage(orig, rows, i3, n, from, mA, mC, keys, justified) && JustMatched(orig, rows, i3, mA)
        invariant mA + Left(0, diff1, restA) == mA0 + Left(0, d.diff1, restA)
        invariant mC + Left(0, diff2, restC) == mC0 + Left(0, d.diff2, restC)
        invariant i3 == |rows| ==> diff1 == 0
        invariant asserted <==> !AppendedAtEnd(rows, i3, mC + Repeat(true, diff2))
        invariant |rows| == |old(rows)| + d.diff2 - diff2
      {
        SecondInsert(orig, rows, i3, n, from, mA, mC, keys, justified);
        InsertedBefore(orig, rows, i3, mA, NEW_ROW.(lineC := lineC));
        LeftDiff(mA, diff1, restA);
        LeftDiff(mC, diff2, restC);
        assert mC + Repeat(true, diff2) == (mC + [true]) + Repeat(true, diff2 - 1);
        rows := rows[..i3] + [NEW_ROW.(lineC := lineC)] + rows[i3..];
        i3 := i3 + 1;
        diff1, diff2 := diff1 - 1, diff2 - 1;
        SecondPass(orig, rows, i3, n, from, mA, mC + [true], keys, justified);
        PassedKeeps(orig, rows, i3, mA, [true]);
        lineA, lineC, mA, mC := lineA + 1, lineC + 1, mA + [true], mC + [true];
      }
      SecondPasses(orig, rows, i3, n, from, mA, mC, keys, justified, diff1);
      PassedKeeps(orig, rows, i3, mA, Repeat(true, diff1));
      LeftPassed(mA, diff1, restA);
      lineA, mA := lineA + diff1, mA + Repeat(true, diff1);
      while diff2 > 0
        invariant 0 <= diff2 && 0 <= i3 <= |rows| && lineA == |mA| == a0 + d.diff1
        invariant lineC == |mC| == c0 + d.diff2 - diff2
        invariant SecondStage(orig, rows, i3, n, from, mA, mC, keys, justified) && JustMatched(orig, rows, i3, mA)
        invariant mC + Left(0, diff2, restC) == mC0 + Left(0, d.diff2, restC)
        invariant asserted <==> !AppendedAtEnd(rows, i3, mC + Repeat(true, diff2))
        invariant |rows| == |old(rows)| + d.diff2 - diff2
      {
        SecondInsert(orig, rows, i3, n, from, mA, mC, keys, justified);
        InsertedBefore(orig, rows, i3, mA, NEW_ROW.(lineC := lineC));
        LeftDiff(mC, diff2, restC);
        assert mC + Repeat(true, diff2) == (mC + [true]) + Repeat(true, diff2 - 1);
        rows := rows[..i3] + [NEW_ROW.(lineC := lineC)] + rows[i3..];
        i3 := i3 + 1;
        diff2 := diff2 - 1;
        lineC, mC := lineC + 1, mC + [true];
      }
      LeftNone(restC);
      assert mC + Repeat(true, 0) == mC;
    }

    /** Moves the cursor to the row of line A; it is there, so the cursor never reaches the end. */
    method FindRow(i0: int, lineA: int, ghost orig: seq<Diff3Line>, ghost n: int, ghost from0: int, ghost mA: seq<bool>,
                   ghost mC: seq<bool>, ghost keys: Keys, ghost justified: bool)
      returns (i3: int, ghost from: int)
      requires lineA == |mA| < n && 0 <= i0 <= |rows| && SecondStage(orig, rows, i0, n, from0, mA, mC, keys, justified)
      ensures i0 <= i3 < |rows| && rows[i3].lineA == lineA == from
      ensures SecondStage(orig, rows, i3, n, from, mA, mC, keys, justified)
    {
      hide SecondStage;
      i3, from := i0, from0;
      SecondSkip(orig, rows, i3, n, from, mA, mC, keys, justified);
      while rows[i3].lineA != lineA
        invariant i0 <= i3 < |rows| && SecondStage(orig, rows, i3, n, from, mA, mC, keys, justified)
        invariant rows[i3].Has(A) ==> rows[i3].lineA == from
        decreases |rows| - i3
      {
        SecondSkip(orig, rows, i3, n, from, mA, mC, keys, justified);
        from := if rows[i3].Has(A) then from + 1 else from;
        i3 := i3 + 1;
        SecondSkip(orig, rows, i3, n, from, mA, mC, keys, justified);
      }
    }

    // ----- the correction for manual alignments

    /** The first row that carries the first line of a range, and the input it belongs to. */
    method FindFirst(e: Entry) returns (i3: int, wi: Selector)
      ensures wi in {A, B, C, Invalid} && 0 <= i3 <= |rows|
      ensures wi != Invalid ==> i3 < |rows| && HasFirst(rows[i3], e, wi)
      ensures forall k, w :: 0 <= k < i3 && w in {A, B, C} ==> !HasFirst(rows[k], e, w)
      ensures wi == Invalid ==> i3 == |rows|
    {
      i3, wi := 0, Invalid;
      while i3 < |rows|
        invariant 0 <= i3 <= |rows| && wi == Invalid
        invariant forall k, w :: 0 <= k < i3 && w in {A, B, C} ==> !HasFirst(rows[k], e, w)
      {
        wi := FirstIn(rows[i3], e, Selector.None);
        if wi != Invalid {
          break;
        }
        i3 := i3 + 1;
      }
    }

    /** The lines of the input without range move into rows of their own, up to a line that counts as equal. */
    method MoveMissing(e: Entry, i0: int, dest: int, wi3: Selector, ghost v: Selector, ghost w: Selector)
      requires 0 <= dest <= i0 < |rows| && Three(wi3, v, w)
      requires Room(rows, wi3, dest, i0) && HasFirst(rows[dest], e, v) && HasFirst(rows[dest], e, w)
      modifies this
      ensures Rearranged(old(rows), rows) && Met(rows, e)
      ensures Ordered(old(rows)) ==> KeepsEarlier(old(rows), rows, e)
      ensures exists stop :: MovedUp(old(rows), rows, dest, i0, stop, wi3)
                             && (stop < |old(rows)| ==> StopsMove(old(rows)[stop], wi3))
      ensures ThirdPassed(rows, e, v, w, wi3)
    {
      hide Rearranged, Diff3Line.Line, Diff3Line.SetLine, Ordered, KeepsEarlier, MovedUp, Met, ThirdPassed, Inserted;
      var i3, iDest := i0, dest;
      ghost var before := rows;
      ghost var stop := i0;
      RearrangedSelf(rows);
      KeepsSelf(rows, e);
      MovedUpStart(rows, dest, i0, wi3);
      while i3 < |rows|
        invariant 0 <= iDest <= i3 <= |rows| && iDest < |rows| && Room(rows, wi3, iDest, i3)
        invariant HasFirst(rows[iDest], e, v) && HasFirst(rows[iDest], e, w)
        invariant Rearranged(before, rows) && (Ordered(before) ==> KeepsEarlier(before, rows, e))
        invariant stop == i3 - (|rows| - |before|) && iDest == dest + (|rows| - |before|)
        invariant MovedUp(before, rows, dest, i0, stop, wi3)
        decreases |rows| - i3
      {
        MovedUpAt(before, rows, dest, i0, stop, wi3);
        if rows[i3].Has(wi3) {
          if (if wi3 == C then rows[i3].bAEqC else rows[i3].bAEqB) {
            break;
          }
          MoveOne(rows, iDest, i3, wi3, v, w);
          MovedUpNext(before, rows, dest, i0, stop, wi3);
          ghost var now := rows;
          ghost var sr := Gone(rows[i3], wi3);
          var d3l := NEW_ROW.SetLine(wi3, rows[i3].Line(wi3));
          rows := rows[i3 := Gone(rows[i3], wi3)];
          rows := rows[..iDest] + [d3l] + rows[iDest..];
          InsertedAgain(now, iDest, i3, d3l, sr);
          OneStepKeeps(before, now, iDest, i3, wi3, v, w, e);
          RearrangedTrans(before, now, rows);
          i3, iDest := i3 + 1, iDest + 1;
        } else {
          MovedUpNext(before, rows, dest, i0, stop, wi3);
        }
        i3, stop := i3 + 1, stop + 1;
      }
      PassedHere(rows, e, v, w, wi3, iDest, i3);
    }

    /** The second input is found: its line joins the row of the first one, then the input without range follows. */
    method AlignSecond(e: Entry, i3: int, iDest: int, wi: Selector, wi2: Selector, missingWinIdx: Selector,
                       ghost third: Selector)
      requires 0 <= iDest <= i3 < |rows| && Three(wi, wi2, third) && HasFirst(rows[iDest], e, wi)
      requires HasFirst(rows[i3], e, wi2)
      requires missingWinIdx in {Selector.None, third} && (missingWinIdx == third ==> !IsLine(e.Line1(third)))
      requires Room(rows, wi2, iDest, i3) && Room(rows, third, iDest, i3) && (iDest < i3 ==> NoFlags(rows[iDest]))
      modifies this
      ensures Rearranged(old(rows), rows) && Met(rows, e)
      ensures Ordered(old(rows)) ==> KeepsEarlier(old(rows), rows, e)
      ensures Ordered(old(rows)) ==> (MetAll(rows, e) <==> i3 == iDest && MetAll(old(rows), e))
      ensures missingWinIdx != Selector.None ==> ThirdPassed(rows, e, wi, wi2, third)
    {
      hide Rearranged, Diff3Line.Line, Diff3Line.SetLine, Ordered, KeepsEarlier, MetAll, MovedUp, ThirdPassed;
      RearrangedSelf(rows);
      KeepsSelf(rows, e);
      ghost var before := rows;
      if i3 != iDest {
        JoinRow(rows, iDest, i3, wi2, wi, third);
        JoinKeeps(rows, iDest, i3, wi2, e);
        var l := rows[i3].Line(wi2);
        rows := rows[iDest := rows[iDest].SetLine(wi2, l)][i3 := Gone(rows[i3], wi2)];
        StillOrdered(before, rows);
        if Ordered(before) {
          MeetOnlyThere(rows, e, wi, iDest);
        }
      }
      ghost var joined := rows;
      StillOrdered(before, joined);
      assert HasFirst(rows[iDest], e, wi) && HasFirst(rows[iDest], e, wi2);
      if missingWinIdx != Selector.None {
        MoveMissing(e, i3, iDest, missingWinIdx, wi, wi2);
        RearrangedTrans(before, joined, rows);
        NeedsAll(rows, e, third);
        NeedsAll(before, e, third);
        if Ordered(before) {
          KeepsTrans(before, joined, rows, e);
        }
      } else {
        assert MetIn(rows[iDest], e);
      }
    }

    /**
      Corrects the rows for one manually aligned range.  The lines before the first line of the second
      input move up, so that two of the first lines meet in one row whenever two of them are there.  All
      three meet exactly if they shared a row before: the line of the third input is never looked for.
      Lines before the range that share a row stay together.  Lines of an input without range leave the
      rows from there on, up to one that counts as equal.
     */
    method CorrectEntry(e: Entry, missingWinIdx: Selector)
      requires missingWinIdx in {Selector.None, A, B, C}
      requires missingWinIdx != Selector.None ==> !IsLine(e.Line1(missingWinIdx))
      modifies this
      ensures Rearranged(old(rows), rows)
      ensures forall v, w :: v in {A, B, C} && w in {A, B, C} && v != w
                             && Appears(old(rows), e, v, 0) && Appears(old(rows), e, w, 0) ==>
                               Met(rows, e)
      ensures forall v, w, z :: Three(v, w, z) && !IsLine(e.Line1(z))
                                && Appears(old(rows), e, v, 0) && Appears(old(rows), e, w, 0) ==>
                                  Together(rows, e, v, w)
      ensures Ordered(old(rows)) ==> (MetAll(rows, e) <==> MetAll(old(rows), e))
      ensures Ordered(old(rows)) ==> KeepsEarlier(old(rows), rows, e)
      ensures forall v, w :: Three(v, w, missingWinIdx)
                             && Appears(old(rows), e, v, 0) && Appears(old(rows), e, w, 0) ==>
                               ThirdPassed(rows, e, v, w, missingWinIdx)
    {
      hide Rearranged, Appears, Diff3Line.Line, Diff3Line.SetLine, Ordered, KeepsEarlier, MetAll, Met, Together,
           ThirdPassed;
      ghost var before := rows;
      RearrangedSelf(rows);
      KeepsSelf(rows, e);
      var i3, wi := FindFirst(e);
      NotBefore(rows, e, i3);
      if wi != Invalid {
        var iDest := i3;
        ghost var x, y := if wi == A then B else A, if wi == C then B else C;
        while i3 < |rows|
          invariant Searching(before, rows, e, iDest, i3, wi, x, y)
          decreases |rows| - i3
        {
          ghost var now := rows;
          var wi2 := FirstIn(rows[i3], e, wi);
          if wi2 == Invalid {
            SearchOn(before, rows, e, iDest, i3, wi, x, y);
            ghost var sr := OthersGone(rows[i3], wi);
            var d3l := OthersUp(rows[i3], wi);
            rows := rows[i3 := OthersGone(rows[i3], wi)];
            rows := rows[..iDest] + [d3l] + rows[iDest..];
            assert rows == Inserted(now, iDest, i3, d3l, sr);
            i3, iDest := i3 + 1, iDest + 1;
          } else {
            AlignSecond(e, i3, iDest, wi, wi2, missingWinIdx, if wi2 == x then y else x);
            RearrangedTrans(before, now, rows);
            StillOrdered(before, now);
            if Ordered(before) {
              KeepsTrans(before, now, rows, e);
            }
            TogetherIfMet(rows, e);
            PassedThird(rows, e, wi, wi2, missingWinIdx);
            return;
          }
          i3 := i3 + 1;
        }
        SearchEnds(before, rows, e, iDest, i3, wi, x, y);
      } else {
        NoneLater(rows, e, A, i3);
        NoneLater(rows, e, B, i3);
        NoneLater(rows, e, C, i3);
      }
    }

    /**
      Corrects the rows for the manually aligned ranges, one after the other, up to the first range that
      aligns nothing.  In a list of successive ranges the correction for one range does not undo that of
      another: in the end two of the first lines of every range share a row.  The lines of an input without
      range in the last of them have left the rows from there on, up to one that counts as equal.
     */
    method CorrectManualDiffAlignment(entries: seq<Entry>)
      modifies this
      ensures Rearranged(old(rows), rows)
      ensures |entries| == 0 ==> rows == old(rows)
      ensures Ordered(old(rows)) && Successive(entries) ==>
                forall i :: Reached(entries, i) && AllThere(old(rows), entries[i]) ==> Met(rows, entries[i])
      ensures Reached(entries, |entries| - 1) && AllThere(old(rows), entries[|entries| - 1]) ==>
                ThirdFollowed(rows, entries[|entries| - 1])
    {
      hide Rearranged, Ordered, AllThere, Met, KeepsEarlier, Later, ThirdFollowed;
      ghost var before := rows;
      ghost var successive := Ordered(rows) && Successive(entries);
      RearrangedSelf(rows);
      var i := 0;
      while i < |entries|
        invariant 0 <= i <= |entries| && Rearranged(before, rows)
        invariant i == 0 ==> rows == before
        invariant successive ==> forall j :: 0 <= j < i && AllThere(before, entries[j]) ==> Met(rows, entries[j])
        invariant i > 0 && AllThere(before, entries[i - 1]) ==> ThirdFollowed(rows, entries[i - 1])
      {
        var e := entries[i];
        var alignedSum := (if IsLine(e.lineA1) then 1 else 0) + (if IsLine(e.lineB1) then 1 else 0)
          + (if IsLine(e.lineC1) then 1 else 0);
        var missingWinIdx := Selector.None;
        if alignedSum == 2 {
          missingWinIdx := if !IsLine(e.lineA1) then A else if !IsLine(e.lineB1) then B else C;
        } else if alignedSum <= 1 {
          return;
        }
        ghost var now := rows;
        CorrectEntry(e, missingWinIdx);
        StillOrdered(before, now);
        StillThere(before, now, e);
        if AllThere(now, e) {
          TwoThere(now, e);
          FollowedNow(now, rows, e, missingWinIdx);
        }
        if successive {
          forall j | 0 <= j < i && AllThere(before, entries[j])
            ensures Met(rows, entries[j])
          {
            MetKept(now, rows, entries[j], e);
          }
        }
        RearrangedTrans(before, now, rows);
        i := i + 1;
      }
    }

    // ----- the comparison of the texts

    /** Compares the texts of two inputs row by row and reports whether they are all the same. */
    method FineDiff(sel: Selector, v1: seq<FineDiffs.LineData>, v2: seq<FineDiffs.LineData>, ignoreComments: bool,
                    ignoreWhite: bool, cap: int)
      returns (bTextsTotalEqual: bool)
      requires sel in {A, B, C} && forall k :: 0 <= k < |rows| ==> FineDiffs.Within(rows[k], sel, v1, v2)
      modifies this
      ensures |rows| == |old(rows)|
      ensures forall k :: 0 <= k < |rows| ==>
                FineDiffs.RowCompared(old(rows)[k], rows[k], sel, v1, v2, ignoreComments, ignoreWhite, cap)
      ensures bTextsTotalEqual <==> forall k :: 0 <= k < |rows| ==> FineDiffs.SameTexts(old(rows)[k], sel, v1, v2)
    {
      hide FineDiffs.Within, FineDiffs.RowCompared, FineDiffs.SameTexts;
      ghost var before := rows;
      bTextsTotalEqual := true;
      var k := 0;
      while k < |rows|
        invariant 0 <= k <= |rows| == |before|
        invariant forall j :: 0 <= j < k ==>
                    FineDiffs.RowCompared(before[j], rows[j], sel, v1, v2, ignoreComments, ignoreWhite, cap)
        invariant forall j :: k <= j < |rows| ==> rows[j] == before[j]
        invariant bTextsTotalEqual <==> forall j :: 0 <= j < k ==> FineDiffs.SameTexts(before[j], sel, v1, v2)
      {
        var r;
        r, bTextsTotalEqual := FineDiffs.FineDiffRow(rows[k], bTextsTotalEqual, sel, v1, v2, ignoreComments,
                                                     ignoreWhite, cap);
        rows := rows[k := r];
        k := k + 1;
      }
    }

    /** Notes for each input whether it has no text in the row: no line, or a blank one. */
    method CalcWhiteDiff3Lines(pldA: seq<FineDiffs.LineData>, pldB: seq<FineDiffs.LineData>,
                               pldC: seq<FineDiffs.LineData>, bIgnoreComments: bool)
      requires forall k :: 0 <= k < |rows| ==>
                 InFile(rows[k], A, |pldA|) && InFile(rows[k], B, |pldB|) && InFile(rows[k], C, |pldC|)
      modifies this
      ensures |rows| == |old(rows)|
      ensures forall k :: 0 <= k < |rows| ==>
                Whitened(old(rows)[k], rows[k], pldA, pldB, pldC, bIgnoreComments)
    {
      hide Whitened, NoText, InFile;
      ghost var before := rows;
      var k := 0;
      while k < |rows|
        invariant 0 <= k <= |rows| == |before|
        invariant forall j :: 0 <= j < k ==> Whitened(before[j], rows[j], pldA, pldB, pldC, bIgnoreComments)
        invariant forall j :: k <= j < |rows| ==> rows[j] == before[j]
      {
        var a := WhiteLine(rows[k], A, pldA, bIgnoreComments);
        var b := WhiteLine(rows[k], B, pldB, bIgnoreComments);
        var c := WhiteLine(rows[k], C, pldC, bIgnoreComments);
        WhitenedBy(rows[k], a, b, c, pldA, pldB, pldC, bIgnoreComments);
        rows := rows[k := rows[k].(bWhiteLineA := a, bWhiteLineB := b, bWhiteLineC := c)];
        k := k + 1;
      }
    }

    static method WhiteLine(r: Diff3Line, w: Selector, pld: seq<FineDiffs.LineData>, bIgnoreComments: bool)
      returns (white: bool)
      requires w in {A, B, C} && InFile(r, w, |pld|)
      ensures white <==> NoText(r, w, pld, bIgnoreComments)
    {
      var l := r.Line(w);
      white := !IsLine(l) || pld[l].white || (bIgnoreComments && pld[l].pureComment);
    }

    // ----- the compacting pass

    /** Moves 1 to 3: there is room for x in a row whose other two lines are equal, and x matches them. */
    method TrimMatching(texts: Keys, entries: seq<Entry>, line: int, to: int, x: Selector, y: Selector, z: Selector,
                        ghost cy: int, ghost cz: int)
      returns (moved: bool)
      requires Three(x, y, z) && 0 <= line < |rows| && InFiles(rows, texts) && Room(rows, x, to, line)
      requires Room(rows, y, cy, line) && Room(rows, z, cz, line)
      modifies this
      ensures Step(old(rows), rows, texts, line)
      ensures Room(rows, x, if moved then to + 1 else to, line)
      ensures Room(rows, y, cy, line) && Room(rows, z, cz, line)
      ensures Carries(old(rows), rows, line) && (moved ==> Behind(rows, x, to + 1))
      ensures moved <==> CanMatch(old(rows), texts, entries, line, to, x, y, z)
      ensures rows == if moved then MatchRows(old(rows), line, to, x, y, z) else old(rows)
    {
      hide Step, Diff3Line.SetLine, Diff3Line.SetEq, Diff3Line.Line, Diff3Line.Eq, Carries, Behind, MatchingDest,
           MatchingSrc;
      moved := false;
      StepSelf(rows, texts, line);
      CarriesSelf(rows, line);
      if line > to && rows[line].Has(x) && rows[to].Has(y) && rows[to].Eq(y, z) {
        RowInFilesBy(rows[line], texts, x, y, z);
        RowInFilesBy(rows[to], texts, x, y, z);
        var same := SameText(texts, x, rows[line].Line(x), y, rows[to].Line(y));
        if same && IsValidMove(entries, rows[line].Line(x), rows[to].Line(y), x, y)
                && IsValidMove(entries, rows[line].Line(x), rows[to].Line(z), x, z) {
          MatchingStep(rows, texts, to, line, x, y, z);
          MatchingDensity(rows, to, line, x, y, z);
          rows := rows[to := MatchingDest(rows[to], rows[line], x, y, z)][line := MatchingSrc(rows[line], x, y, z)];
          moved := true;
        }
      }
    }

    /** Whether the line of x in one row has the text of the line of y in another one, if there is one. */
    static method SameAs(texts: Keys, src: Diff3Line, x: Selector, dest: Diff3Line, y: Selector) returns (same: bool)
      requires x in {A, B, C} && y in {A, B, C} && x != y && src.Has(x) && InFile(src, x, |texts.Of(x)|)
      requires InFile(dest, y, |texts.Of(y)|)
      ensures dest.Has(y) ==> Tested(same, Blanks(texts), x, src.Line(x), y, dest.Line(y))
                              && forall o :: TestedTrue(same, Essences(o, texts), x, src.Line(x), y, dest.Line(y))
      ensures same <==> EqualThere(texts, src, x, dest, y)
    {
      same := false;
      if dest.Has(y) {
        same := SameText(texts, x, src.Line(x), y, dest.Line(y));
      }
    }

    /** Moves 4 to 6: x matches nothing in its row and there is room for it further up. */
    method TrimUnmatched(texts: Keys, entries: seq<Entry>, line: int, to: int, x: Selector, y: Selector, z: Selector,
                        ghost cy: int, ghost cz: int)
      returns (moved: bool)
      requires Three(x, y, z) && 0 <= line < |rows| && InFiles(rows, texts) && Room(rows, x, to, line)
      requires Room(rows, y, cy, line) && Room(rows, z, cz, line)
      modifies this
      ensures Step(old(rows), rows, texts, line)
      ensures Room(rows, x, if moved then to + 1 else to, line)
      ensures Room(rows, y, cy, line) && Room(rows, z, cz, line)
      ensures (Behind(old(rows), x, to) ==> Carries(old(rows), rows, line)) && (moved ==> Behind(rows, x, to + 1))
      ensures entries == [] && Lone(rows[line], x) ==> !moved && to == line
      ensures (Lone(rows[line], y) ==> Lone(old(rows)[line], y)) && (Lone(rows[line], z) ==> Lone(old(rows)[line], z))
      ensures moved <==> CanLift(old(rows), entries, line, to, x, y, z)
      ensures rows == if moved then LiftRows(old(rows), texts, line, to, x, y, z) else old(rows)
    {
      hide Step, Diff3Line.SetLine, Diff3Line.SetEq, Diff3Line.Line, Diff3Line.Eq, Carries, Behind, Lone, UnmatchedDest,
           UnmatchedSrc, Tested, TestedTrue, InFiles, InFile, Blanks, Essences, IsValidMove, Room;
      RoomBounds(rows, x, to, line);
      NoRanges(entries, x, y, z);
      moved := false;
      StepSelf(rows, texts, line);
      CarriesSelf(rows, line);
      LoneBy(rows[line], x, y, z);
      if line > to && rows[line].Has(x) && !rows[line].Eq(x, y) && !rows[line].Eq(x, z)
         && IsValidMove(entries, rows[line].Line(x), rows[to].Line(y), x, y)
         && IsValidMove(entries, rows[line].Line(x), rows[to].Line(z), x, z) {
        BothInFiles(rows, texts, to, line, x, y, z);
        var sameY := SameAs(texts, rows[line], x, rows[to], y);
        var sameZ := SameAs(texts, rows[line], x, rows[to], z);
        UnmatchedStep(rows, texts, to, line, x, y, z, sameY, sameZ);
        UnmatchedDensity(rows, to, line, x, y, z, sameY, sameZ);
        rows := rows[to := UnmatchedDest(rows[to], rows[line], x, y, z, sameY, sameZ)]
                    [line := UnmatchedSrc(rows[line], x)];
        RoomShrinks(rows, x, to + 1, line);
        moved := true;
      }
    }

    /** Moves 7 to 9: x and y match each other but not z, and there is room for both. */
    method TrimPair(texts: Keys, entries: seq<Entry>, line: int, to: int, x: Selector, y: Selector, z: Selector)
      returns (moved: bool)
      requires Three(x, y, z) && 0 <= to < line < |rows| && InFiles(rows, texts) && Room(rows, x, to, line)
      requires Room(rows, y, to, line)
      requires rows[line].Has(x) && rows[line].Eq(x, y) && (!rows[line].Eq(x, z) || !rows[line].Eq(y, z))
      modifies this
      ensures Step(old(rows), rows, texts, line)
      ensures moved ==> Room(rows, x, to + 1, line) && Room(rows, y, to + 1, line)
      ensures forall p, q :: Room(old(rows), z, p, q) ==> Room(rows, z, p, q)
      ensures moved <==> CanPair(old(rows), entries, line, to, x, y, z)
      ensures rows == if moved then PairRowsMoved(old(rows), texts, line, to, x, y, z) else old(rows)
      ensures old(rows)[line].Has(y) && EitherAbove(old(rows), to, x, y) ==>
                Carries(old(rows), rows, line) && (moved ==> Behind(rows, x, to + 1) && Behind(rows, y, to + 1))
      ensures moved ==> !Lone(rows[line], x) && !Lone(rows[line], y)
      ensures Lone(rows[line], z) ==> Lone(old(rows)[line], z)
      ensures entries == [] ==> moved
      ensures moved && LonePair(old(rows)[line], x, y, z) ==> NoPairs(rows[line])
    {
      hide Step, Diff3Line.SetLine, Diff3Line.SetEq, Diff3Line.Line, Diff3Line.Eq, Carries, Behind, Lone, PairDest,
           PairSrc, EitherAbove, LonePair, NoPairs;
      NoRanges(entries, z, x, y);
      moved := false;
      StepSelf(rows, texts, line);
      CarriesSelf(rows, line);
      if IsValidMove(entries, rows[to].Line(z), rows[line].Line(x), z, x)
        && IsValidMove(entries, rows[to].Line(z), rows[line].Line(y), z, y) {
        RowInFilesBy(rows[line], texts, x, y, z);
        RowInFilesBy(rows[to], texts, x, y, z);
        var sameZ := SameAs(texts, rows[line], x, rows[to], z);
        PairStep(rows, texts, to, line, x, y, z, sameZ);
        PairDensity(rows, to, line, x, y, z, sameZ);
        rows := rows[to := PairDest(rows[to], rows[line], x, y, z, sameZ)][line := PairSrc(rows[line], x, y)];
        moved := true;
      }
    }

    /** Tries the nine moves on one row; the cursors point at the first rows with room for A, B and C. */
    method TrimRow(texts: Keys, entries: seq<Entry>, line: int, a0: int, b0: int, c0: int, ghost o: Options,
                   ghost dense: bool)
      returns (lineA: int, lineB: int, lineC: int)
      requires 0 <= line < |rows| && InFiles(rows, texts)
      requires Room(rows, A, a0, line) && Room(rows, B, b0, line) && Room(rows, C, c0, line)
      requires dense ==> entries == [] && Dense(rows, line, a0, b0, c0) && WellFlagged(rows, Essences(o, texts), line)
      modifies this
      ensures Step(old(rows), rows, texts, line)
      ensures Room(rows, A, lineA, line) && Room(rows, B, lineB, line) && Room(rows, C, lineC, line)
      ensures dense ==> Dense(rows, line, lineA, lineB, lineC) && LoneAtCursor(rows[line], line, lineA, lineB, lineC)
      ensures Pass(rows, lineA, lineB, lineC) == RowPass(Pass(old(rows), a0, b0, c0), texts, entries, line)
    {
      hide Step, Room, InFiles, Dense, Carries, Behind, WellFlagged, LoneAtCursor, LinesAtCursor, Lone, Matches, Lifts,
           OnePair;
      ghost var r0 := rows;
      lineA, lineB, lineC := TrimRowMatching(texts, entries, line, a0, b0, c0, dense);
      ghost var r1 := rows;
      StepShape(r0, r1, texts, line);
      lineA, lineB, lineC := TrimRowSingles(texts, entries, line, lineA, lineB, lineC, dense);
      ghost var r2 := rows;
      StepShape(r1, r2, texts, line);
      StepTrans(r0, r1, r2, texts, line);
      if dense {
        StepFlags(r0, r2, texts, line, o);
      }
      lineA, lineB, lineC := TrimRowPairs(texts, entries, line, lineA, lineB, lineC, o, dense);
      StepTrans(r0, r2, rows, texts, line);
    }

    /** One of the moves 1 to 3, with the cursor of its input. */
    method MatchMove(texts: Keys, entries: seq<Entry>, line: int, to: int, x: Selector, y: Selector, z: Selector,
                  ghost p: Pass, ghost dense: bool)
      returns (next: int)
      requires Three(x, y, z) && 0 <= line < |rows| && InFiles(rows, texts)
      requires p.rows == rows && p.At(x) == to && RoomFor(p, line)
      requires dense ==> DensePass(p, line)
      modifies this
      ensures Step(old(rows), rows, texts, line)
      ensures p.Moved(rows, x, next) == Match(p, texts, entries, line, x, y, z)
      ensures RoomFor(p.Moved(rows, x, next), line) && (dense ==> DensePass(p.Moved(rows, x, next), line))
    {
      hide Step, Room, InFiles, Carries, Behind, Dense, CanMatch, MatchRows, Match;
      next := to;
      RoomForBy(p, line, x, y, z);
      DenseBehind(p, line, x);
      var moved := TrimMatching(texts, entries, line, to, x, y, z, p.At(y), p.At(z));
      MatchIs(p, texts, entries, line, x, y, z, moved, rows);
      StepShape(p.rows, rows, texts, line);
      if moved {
        next := to + 1;
      }
      RoomForBy(p.Moved(rows, x, next), line, x, y, z);
      RoomBounds(rows, x, next, line);
      if dense {
        DenseStep(p, rows, line, x, next);
      }
    }

    /** Moves 1 to 3 on one row. */
    method TrimRowMatching(texts: Keys, entries: seq<Entry>, line: int, a0: int, b0: int, c0: int, ghost dense: bool)
      returns (lineA: int, lineB: int, lineC: int)
      requires 0 <= line < |rows| && InFiles(rows, texts) && RoomFor(Pass(rows, a0, b0, c0), line)
      requires dense ==> DensePass(Pass(rows, a0, b0, c0), line)
      modifies this
      ensures Step(old(rows), rows, texts, line)
      ensures Pass(rows, lineA, lineB, lineC) == Matches(Pass(old(rows), a0, b0, c0), texts, entries, line)
      ensures RoomFor(Pass(rows, lineA, lineB, lineC), line)
      ensures dense ==> DensePass(Pass(rows, lineA, lineB, lineC), line)
    {
      hide Step, RoomFor, InFiles, DensePass, Match;
      lineA, lineB, lineC := a0, b0, c0;
      ghost var r0 := rows;
      lineA := MatchMove(texts, entries, line, lineA, A, B, C, Pass(rows, lineA, lineB, lineC), dense);
      ghost var r1 := rows;
      StepShape(r0, r1, texts, line);
      lineB := MatchMove(texts, entries, line, lineB, B, A, C, Pass(rows, lineA, lineB, lineC), dense);
      ghost var r2 := rows;
      StepShape(r1, r2, texts, line);
      StepTrans(r0, r1, r2, texts, line);
      lineC := MatchMove(texts, entries, line, lineC, C, A, B, Pass(rows, lineA, lineB, lineC), dense);
      StepTrans(r0, r2, rows, texts, line);
    }

    /** One of the moves 4 to 6, with the cursor of its input; a line that stays lone has no room above. */
    method LiftMove(texts: Keys, entries: seq<Entry>, line: int, to: int, x: Selector, y: Selector, z: Selector,
                  ghost p: Pass, ghost dense: bool)
      returns (next: int)
      requires Three(x, y, z) && 0 <= line < |rows| && InFiles(rows, texts)
      requires p.rows == rows && p.At(x) == to && RoomFor(p, line)
      requires dense ==> entries == [] && DensePass(p, line)
      modifies this
      ensures Step(old(rows), rows, texts, line)
      ensures p.Moved(rows, x, next) == Lift(p, texts, entries, line, x, y, z)
      ensures RoomFor(p.Moved(rows, x, next), line) && (dense ==> DensePass(p.Moved(rows, x, next), line))
      ensures entries == [] && Lone(rows[line], x) ==> next == line
      ensures (Lone(rows[line], y) ==> Lone(old(rows)[line], y)) && (Lone(rows[line], z) ==> Lone(old(rows)[line], z))
    {
      hide Step, Room, InFiles, Carries, Behind, Dense, CanLift, LiftRows, Lift, Lone;
      next := to;
      RoomForBy(p, line, x, y, z);
      DenseBehind(p, line, x);
      var moved := TrimUnmatched(texts, entries, line, to, x, y, z, p.At(y), p.At(z));
      LiftIs(p, texts, entries, line, x, y, z, moved, rows);
      StepShape(p.rows, rows, texts, line);
      if moved {
        next := to + 1;
      }
      RoomForBy(p.Moved(rows, x, next), line, x, y, z);
      RoomBounds(rows, x, next, line);
      if dense {
        DenseStep(p, rows, line, x, next);
      }
    }

    /** Moves 4 to 6 on one row. */
    method TrimRowSingles(texts: Keys, entries: seq<Entry>, line: int, a0: int, b0: int, c0: int, ghost dense: bool)
      returns (lineA: int, lineB: int, lineC: int)
      requires 0 <= line < |rows| && InFiles(rows, texts) && RoomFor(Pass(rows, a0, b0, c0), line)
      requires dense ==> entries == [] && DensePass(Pass(rows, a0, b0, c0), line)
      modifies this
      ensures Step(old(rows), rows, texts, line)
      ensures Pass(rows, lineA, lineB, lineC) == Lifts(Pass(old(rows), a0, b0, c0), texts, entries, line)
      ensures RoomFor(Pass(rows, lineA, lineB, lineC), line)
      ensures dense ==> DensePass(Pass(rows, lineA, lineB, lineC), line)
      ensures dense ==> 0 <= line < |rows| && LinesAtCursor(rows[line], line, lineA, lineB, lineC)
    {
      hide Step, RoomFor, InFiles, DensePass, Lift, Lone;
      lineA, lineB, lineC := a0, b0, c0;
      ghost var r0 := rows;
      lineA := LiftMove(texts, entries, line, lineA, A, B, C, Pass(rows, lineA, lineB, lineC), dense);
      ghost var r1 := rows;
      StepShape(r0, r1, texts, line);
      lineB := LiftMove(texts, entries, line, lineB, B, A, C, Pass(rows, lineA, lineB, lineC), dense);
      ghost var r2 := rows;
      StepShape(r1, r2, texts, line);
      StepTrans(r0, r1, r2, texts, line);
      lineC := LiftMove(texts, entries, line, lineC, C, A, B, Pass(rows, lineA, lineB, lineC), dense);
      StepShape(r2, rows, texts, line);
      StepTrans(r0, r2, rows, texts, line);
    }

    /** At most one of the moves 7 to 9 on one row. */
    method TrimRowPairs(texts: Keys, entries: seq<Entry>, line: int, a0: int, b0: int, c0: int, ghost o: Options,
                        ghost dense: bool)
      returns (lineA: int, lineB: int, lineC: int)
      requires 0 <= line < |rows| && InFiles(rows, texts)
      requires Room(rows, A, a0, line) && Room(rows, B, b0, line) && Room(rows, C, c0, line)
      requires dense ==> entries == [] && Dense(rows, line, a0, b0, c0)
      requires dense ==> LinesAtCursor(rows[line], line, a0, b0, c0) && WellFlagged(rows, Essences(o, texts), line)
      modifies this
      ensures Step(old(rows), rows, texts, line)
      ensures Room(rows, A, lineA, line) && Room(rows, B, lineB, line) && Room(rows, C, lineC, line)
      ensures dense ==> Dense(rows, line, lineA, lineB, lineC) && LoneAtCursor(rows[line], line, lineA, lineB, lineC)
      ensures Pass(rows, lineA, lineB, lineC) == OnePair(Pass(old(rows), a0, b0, c0), texts, entries, line)
    {
      hide Step, InFiles, Dense, Carries, Behind, Lone, WellFlagged, Essences, LonePair, NoPairs, EitherAbove, CanPair,
           PairRowsMoved, Room;
      lineA, lineB, lineC := a0, b0, c0;
      StepSelf(rows, texts, line);
      var row := rows[line];
      ghost var r0 := rows;
      var moved := false;
      RoomBounds(rows, A, a0, line);
      RoomBounds(rows, B, b0, line);
      RoomBounds(rows, C, c0, line);
      if dense {
        TrustFlags(rows, Essences(o, texts), line);
        TrustPairs(rows, Essences(o, texts), line);
        DenseAbove(rows, line, a0, b0, c0);
      }
      if PairFree(row, line, lineA, lineB, A, row.bAEqB && !row.bAEqC) {
        var to := if lineA > lineB then lineA else lineB;
        RoomLater(rows, A, lineA, to, line);
        RoomLater(rows, B, lineB, to, line);
        moved := TrimPair(texts, entries, line, to, A, B, C);
        if moved {
          lineA, lineB := to + 1, to + 1;
        }
      } else if PairFree(row, line, lineA, lineC, A, row.bAEqC && !row.bAEqB) {
        var to := if lineA > lineC then lineA else lineC;
        RoomLater(rows, A, lineA, to, line);
        RoomLater(rows, C, lineC, to, line);
        moved := TrimPair(texts, entries, line, to, A, C, B);
        if moved {
          lineA, lineC := to + 1, to + 1;
        }
      } else if PairFree(row, line, lineB, lineC, B, row.bBEqC && !row.bAEqC) {
        var to := if lineB > lineC then lineB else lineC;
        RoomLater(rows, B, lineB, to, line);
        RoomLater(rows, C, lineC, to, line);
        moved := TrimPair(texts, entries, line, to, B, C, A);
        if moved {
          lineB, lineC := to + 1, to + 1;
        }
      }
      if dense {
        if moved {
          StepShape(r0, rows, texts, line);
          DenseMove(r0, rows, line, a0, b0, c0, lineA, lineB, lineC);
          PairsGone(rows[line], line, lineA, lineB, lineC);
        } else {
          PairsStay(rows, Essences(o, texts), line, lineA, lineB, lineC);
        }
      }
    }

    /**
      Compacts the list: lines move up into rows that have room for them, by the nine moves on one row after
      the other.  No input loses, gains or reorders a line, whatever the flags and the manual ranges are.
      Flags that were justified stay so, and show no pair of inputs equal in fewer rows; flags that were exact
      stay exact; and then no row without lines remains.  Without manual ranges each line that equals nothing
      in its row ends up directly below a line of its input, and each pair that does not equal the third line
      below a line of one of the two.  First lines of manual ranges that share a row keep doing so.
     */
    method CalcDiff3LineListTrim(texts: Keys, entries: seq<Entry>)
      requires InFiles(rows, texts)
      modifies this
      ensures rows == RemoveEmpty(Trimmed(Pass(RemoveEmpty(old(rows)), 0, 0, 0), texts, entries, 0, 0))
      ensures LinesOf(rows, A) == LinesOf(old(rows), A) && LinesOf(rows, B) == LinesOf(old(rows), B)
      ensures LinesOf(rows, C) == LinesOf(old(rows), C)
      ensures InFiles(rows, texts) && (AllBare(old(rows)) ==> AllBare(rows))
      ensures forall o :: WellFlagged(old(rows), Essences(o, texts), 0) ==>
                            AllJustified(rows, Essences(o, texts)) && PairsKept(old(rows), rows)
      ensures AllExact(old(rows), Blanks(texts)) ==> AllExact(rows, Blanks(texts))
      ensures forall o :: WellFlagged(old(rows), Essences(o, texts), 0) && AllBare(old(rows)) ==> Occupied(rows)
      ensures AllExact(old(rows), Blanks(texts)) && AllBare(old(rows)) ==> Occupied(rows)
      ensures TwinsKept(old(rows), rows, texts)
      ensures forall o :: entries == [] && WellFlagged(old(rows), Essences(o, texts), 0) ==> Packed(rows, |rows|)
      ensures Ranged(old(rows), entries) ==>
                forall i :: 0 <= i < |entries| && Whole(old(rows), entries[i]) ==> Whole(rows, entries[i])
    {
      hide Step, Compacted, InFiles, LinesOf, WellFlagged, AllExact, AllBare, Occupied, Dense, Packed, LoneAtCursor,
           TwinsKept, PairsKept, Ranged, RangesDone, Whole, RowPass, Trimmed, RemoveEmpty, AllJustified, Room, OnlyUp;
      ghost var before := rows;
      ghost var dense := entries == [] && exists o :: WellFlagged(before, Essences(o, texts), 0);
      ghost var o: Options :| dense ==> WellFlagged(before, Essences(o, texts), 0);
      CompactedStart(before, texts);
      rows := RemoveEmpty(rows);
      ghost var start, ranged := rows, Ranged(before, entries);
      if ranged {
        RangedRest(before, entries);
      }
      DenseStart(rows);
      RangesStart(rows, entries);
      NoRoomYet(rows, 0);
      var line, lineA, lineB, lineC, iMDHL := 0, 0, 0, 0, 0;
      while line < |rows|
        invariant 0 <= line <= |rows| && 0 <= iMDHL <= |entries|
        invariant Room(rows, A, lineA, line) && Room(rows, B, lineB, line) && Room(rows, C, lineC, line)
        invariant Compacted(before, rows, texts, line)
        invariant dense ==> Dense(rows, line, lineA, lineB, lineC)
        invariant ranged ==> RangesDone(start, rows, entries, line, iMDHL)
        invariant Trimmed(Pass(rows, lineA, lineB, lineC), texts, entries, line, iMDHL)
                  == Trimmed(Pass(start, 0, 0, 0), texts, entries, 0, 0)
        decreases |rows| - line
      {
        ghost var r, hit := rows, iMDHL < |entries| && StartsRange(rows[line], entries[iMDHL]);
        TrimmedNext(Pass(rows, lineA, lineB, lineC), texts, entries, line, iMDHL);
        CompactedFiles(before, r, texts, line);
        if iMDHL < |entries| {
          if StartsRange(rows[line], entries[iMDHL]) {
            lineA, lineB, lineC := line, line, line;
            iMDHL := iMDHL + 1;
            NoRoomYet(rows, line);
            NothingMoves(Pass(rows, line, line, line), texts, entries, line);
          }
        }
        if dense {
          CompactedFlags(before, rows, texts, line, o);
        }
        lineA, lineB, lineC := TrimRow(texts, entries, line, lineA, lineB, lineC, o, dense);
        StepShape(r, rows, texts, line);
        CompactedStep(before, r, rows, texts, line);
        CompactedNext(before, rows, texts, line);
        if dense {
          DenseNext(rows, line, lineA, lineB, lineC);
        }
        if ranged {
          RangesNext(start, r, rows, entries, line, if hit then iMDHL - 1 else iMDHL, hit);
        }
        RoomNext(rows, A, lineA, line);
        RoomNext(rows, B, lineB, line);
        RoomNext(rows, C, lineC, line);
        if rows[line].Has(A) {
          lineA := line + 1;
        }
        if rows[line].Has(B) {
          lineB := line + 1;
        }
        if rows[line].Has(C) {
          lineC := line + 1;
        }
        line := line + 1;
      }
      TrimmedDone(Pass(rows, lineA, lineB, lineC), texts, entries, iMDHL);
      CompactedEnd(before, rows, texts, line);
      if dense {
        DenseEnd(rows, lineA, lineB, lineC);
      }
      if ranged {
        RangesEnd(start, rows, entries, iMDHL);
        WholeRests(rows, entries);
      }
      rows := RemoveEmpty(rows);
    }
  }

  /** A line of the third input that moves up alone separates no lines before the range. */
  lemma OneStepKeeps(before: seq<Diff3Line>, now: seq<Diff3Line>, dest: int, i: int, z: Selector, v: Selector,
                     w: Selector, e: Entry)
    requires Rearranged(before, now) && (Ordered(before) ==> KeepsEarlier(before, now, e))
    requires Three(z, v, w) && 0 <= dest <= i < |now| && Room(now, z, dest, i)
    requires HasFirst(now[dest], e, v) && HasFirst(now[dest], e, w) && now[i].Has(z)
    ensures var after := Inserted(now, dest, i, NEW_ROW.SetLine(z, now[i].Line(z)), Gone(now[i], z));
            Ordered(before) ==> KeepsEarlier(before, after, e)
  {
    hide Rearranged, Ordered, KeepsEarlier, Inserted, Gone, Diff3Line.Line, Diff3Line.SetLine;
    StillOrdered(before, now);
    if Ordered(before) {
      NotEarlier(now, e, v, dest, i);
      NotEarlier(now, e, w, dest, i);
      OneKeeps(now, dest, i, z, v, w, e);
      KeepsTrans(before, now, Inserted(now, dest, i, NEW_ROW.SetLine(z, now[i].Line(z)), Gone(now[i], z)), e);
    }
  }

  /** The original row at which the move of the third input has arrived. */
  lemma MovedUpAt(before: seq<Diff3Line>, now: seq<Diff3Line>, dest: int, i: int, stop: int, z: Selector)
    requires MovedUp(before, now, dest, i, stop, z)
    ensures dest <= stop <= |before| && |before| <= |now|
    ensures stop < |before| ==> now[stop + (|now| - |before|)] == before[stop]
  {
  }

  lemma FollowedNow(before: seq<Diff3Line>, after: seq<Diff3Line>, e: Entry, missing: Selector)
    requires AllThere(before, e)
    requires Sides(e) == 2 ==> missing in {A, B, C} && !IsLine(e.Line1(missing))
    requires forall v, w :: Three(v, w, missing) && Appears(before, e, v, 0) && Appears(before, e, w, 0) ==>
                              ThirdPassed(after, e, v, w, missing)
    ensures ThirdFollowed(after, e)
  {
    hide ThirdPassed, Appears;
    if Sides(e) == 2 {
      forall v, w, z | Three(v, w, z) && !IsLine(e.Line1(z))
        ensures ThirdPassed(after, e, v, w, z)
      {
        assert z == missing && IsLine(e.Line1(v)) && IsLine(e.Line1(w));
      }
    }
  }

  /** The two inputs that have lines in the range are the ones that met. */
  lemma PassedThird(rows: seq<Diff3Line>, e: Entry, wi: Selector, wi2: Selector, missing: Selector)
    requires wi in {A, B, C} && wi2 in {A, B, C} && wi != wi2
    requires Three(wi, wi2, missing) ==> ThirdPassed(rows, e, wi, wi2, missing)
    ensures forall v, w :: Three(v, w, missing) && Three(wi, wi2, missing) ==> ThirdPassed(rows, e, v, w, missing)
  {
    hide ThirdPassed;
    if Three(wi, wi2, missing) {
      PassedEither(rows, e, wi, wi2, missing);
    }
  }

  lemma StepShape(before: seq<Diff3Line>, after: seq<Diff3Line>, texts: Keys, line: int)
    requires Step(before, after, texts, line)
    ensures |after| == |before| && InFiles(after, texts) && OnlyUp(before, after, line)
  {
  }

  lemma CompactedFlags(before: seq<Diff3Line>, after: seq<Diff3Line>, texts: Keys, line: int, o: Options)
    requires Compacted(before, after, texts, line) && WellFlagged(before, Essences(o, texts), 0)
    ensures WellFlagged(after, Essences(o, texts), line)
  {
    hide WellFlagged;
  }

  lemma CompactedFiles(before: seq<Diff3Line>, after: seq<Diff3Line>, texts: Keys, line: int)
    requires Compacted(before, after, texts, line)
    ensures InFiles(after, texts)
  {
  }

  lemma RoomBounds(rows: seq<Diff3Line>, w: Selector, from: int, upTo: int)
    requires Room(rows, w, from, upTo)
    ensures 0 <= from <= upTo <= |rows|
  {
  }

  lemma RoomLater(rows: seq<Diff3Line>, w: Selector, from: int, to: int, upTo: int)
    requires Room(rows, w, from, upTo) && from <= to <= upTo
    ensures Room(rows, w, to, upTo)
  {
  }

  /** There is room from each cursor on. */
  ghost predicate RoomFor(p: Pass, line: int) {
    Room(p.rows, A, p.a, line) && Room(p.rows, B, p.b, line) && Room(p.rows, C, p.c, line)
  }

  lemma RoomForBy(p: Pass, line: int, x: Selector, y: Selector, z: Selector)
    requires Three(x, y, z)
    ensures RoomFor(p, line) <==> Room(p.rows, x, p.At(x), line) && Room(p.rows, y, p.At(y), line)
                                  && Room(p.rows, z, p.At(z), line)
  {
    hide Room;
  }

  ghost predicate DensePass(p: Pass, line: int) { Dense(p.rows, line, p.a, p.b, p.c) }

  lemma DenseBehind(p: Pass, line: int, x: Selector)
    requires x in {A, B, C}
    ensures DensePass(p, line) ==> Behind(p.rows, x, p.At(x))
  {
    hide Behind;
  }

  /** The cursor of one input goes on. */
  lemma DenseStep(p: Pass, after: seq<Diff3Line>, line: int, x: Selector, next: int)
    requires DensePass(p, line) && Carries(p.rows, after, line) && |after| == |p.rows| && x in {A, B, C}
    requires next == p.At(x) || (next <= line && Behind(after, x, next))
    ensures DensePass(p.Moved(after, x, next), line)
  {
    hide Carries, Behind, Dense;
    var q := p.Moved(after, x, next);
    DenseMove(p.rows, after, line, p.a, p.b, p.c, q.a, q.b, q.c);
  }

  lemma NoRoomYet(rows: seq<Diff3Line>, line: int)
    requires 0 <= line <= |rows|
    ensures Room(rows, A, line, line) && Room(rows, B, line, line) && Room(rows, C, line, line)
  {
  }

  lemma RoomNext(rows: seq<Diff3Line>, w: Selector, from: int, line: int)
    requires Room(rows, w, from, line) && line < |rows|
    ensures Room(rows, w, if rows[line].Has(w) then line + 1 else from, line + 1)
  {
  }

  lemma RoomShrinks(rows: seq<Diff3Line>, w: Selector, from: int, upTo: int)
    requires Room(rows, w, from, upTo + 1) && from <= upTo
    ensures Room(rows, w, from, upTo)
  {
  }

  /** Without manual ranges each move is valid. */
  lemma NoRanges(entries: seq<Entry>, x: Selector, y: Selector, z: Selector)
    ensures entries == [] ==> forall l, m :: IsValidMove(entries, l, m, x, y) && IsValidMove(entries, l, m, x, z)
  {
  }

  lemma BothInFiles(rows: seq<Diff3Line>, texts: Keys, to: int, line: int, x: Selector, y: Selector, z: Selector)
    requires Three(x, y, z) && InFiles(rows, texts) && 0 <= to < line < |rows|
    ensures InFile(rows[line], x, |texts.Of(x)|) && InFile(rows[to], y, |texts.Of(y)|)
    ensures InFile(rows[to], z, |texts.Of(z)|)
  {
    hide Diff3Line.Line, InFile;
    RowInFilesBy(rows[line], texts, x, y, z);
    RowInFilesBy(rows[to], texts, x, y, z);
  }
}
