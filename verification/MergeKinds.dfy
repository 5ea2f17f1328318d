/**
  What grouping goes by, told on the texts: two rows belong together if the same input is taken for both,
  or if both are conflicts with the same equalities.
 */
module MergeKinds {
  import opened Lines
  import opened ManualDiffHelp
  import opened Diff3Lines
  import opened MergeRule
  import opened MergeBlocks
  import opened MergeBlockLists
  import opened MergeResults
  import opened WhiteSpace

  // ----- what happened in a row

  /** What happened to a line of A in B and C, or what they added. */
  function WhatHappened(a: Option<Line>, b: Option<Line>, c: Option<Line>): Details {
    if a.Some? then
      if a == b == c then NoChange
      else if b == c == Option.None then BCDeleted
      else if b == a then (if c == Option.None then CDeleted else CChanged)
      else if c == a then (if b == Option.None then BDeleted else BChanged)
      else if b == c then BCChangedAndEqual
      else if b == Option.None then CChangedBDeleted
      else if c == Option.None then BChangedCDeleted
      else BCChanged
    else if b == c then BCAddedAndEqual
    else if b == Option.None then CAdded
    else if c == Option.None then BAdded
    else BCAdded
  }

  /** The details of a decision tell what happened, and its source is the input that made the change. */
  lemma DetailsTell(r: Diff3Line, texts: Keys)
    requires FineTells(r, texts) && (r.Has(A) || r.Has(B) || r.Has(C))
    ensures var a, b, c := TextOf(r, A, texts), TextOf(r, B, texts), TextOf(r, C, texts);
            && Decide(r, true).details == WhatHappened(a, b, c)
            && (!Decide(r, true).conflict ==>
                  Decide(r, true).src == if a == b == c then A else if b == c || a == b then C else B)
  {
  }

  /** With two inputs they tell whether B changed or deleted the line, or, as if it were deleted, whether A has none. */
  lemma DetailsTellTwo(r: Diff3Line, texts: Keys)
    requires FineTells(r, texts)
    ensures var a, b := TextOf(r, A, texts), TextOf(r, B, texts);
            Decide(r, false).details == if a == Option.None || b == Option.None then BDeleted
                                        else if a == b then NoChange
                                        else BChanged
  {
  }

  // ----- the kinds of rows

  datatype Kind = Conflicting(equalAB: bool, equalAC: bool) | From(src: Selector, addedByBoth: bool)

  /** The inputs conflict, or one of them is taken; lines that both sides added are kept apart. */
  ghost function KindOf(r: Diff3Line, texts: Keys, three: bool): Kind {
    var a, b, c := TextOf(r, A, texts), TextOf(r, B, texts), TextOf(r, C, texts);
    if three then
      if a != b && a != c && b != c then Conflicting(r.bAEqB, r.bAEqC)
      else if a == b == c then From(A, false)
      else From(if b == c || a == b then C else B, a == Option.None && b == c)
    else if a == b && a != Option.None then From(A, false)
    else Conflicting(r.bAEqB, r.bAEqC)
  }

  /** A row joins a block exactly if it is of the kind of the first row. */
  lemma SameKindTells(rows: seq<Diff3Line>, texts: Keys, three: bool, j: int, b: Block)
    requires FromComparison(rows, texts, three) && 0 <= j < |rows| && Fresh(b, rows, three)
    requires b.details == Single(rows, b.id3l, three).details
    ensures IsSameKind(Single(rows, j, three), b, rows) <==>
              KindOf(rows[j], texts, three) == KindOf(rows[b.index], texts, three)
  {
    hide Decide, FineTells, TextOf, WhiteSpaceOnly, FreshList;
    assert AlikeRow(b, rows, three, b.index);
    KindTold(rows[j], texts, three);
    KindTold(rows[b.index], texts, three);
  }

  lemma KindTold(r: Diff3Line, texts: Keys, three: bool)
    requires FineTells(r, texts) && (three ==> r.Has(A) || r.Has(B) || r.Has(C))
    ensures KindOf(r, texts, three) == if Decide(r, three).conflict then Conflicting(r.bAEqB, r.bAEqC)
                                       else From(Decide(r, three).src, Decide(r, three).details == BCAddedAndEqual)
    ensures Decide(r, three).src == A ==> Decide(r, three).details == NoChange
    ensures Decide(r, three).conflict <==> Decide(r, three).src == Selector.None
  {
    hide FineTells, Decide, TextOf;
    DecisionShape(r, three);
    if three {
      DecideIsThreeWay(r, texts);
      DetailsTell(r, texts);
      TakenFromA(r);
    } else {
      DecideIsTwoWay(r, texts);
      DetailsTellTwo(r, texts);
    }
  }

  lemma TakenFromA(r: Diff3Line)
    ensures Decide(r, true).src == A ==> Decide(r, true).details == NoChange
  {
  }

  /** The blocks are the longest runs of rows of one kind. */
  ghost predicate LongestRuns(blocks: seq<Block>, rows: seq<Diff3Line>, texts: Keys, three: bool) {
    forall i :: 0 <= i < |blocks| ==> IsRun(blocks, i, rows, texts, three)
  }

  ghost predicate IsRun(blocks: seq<Block>, i: int, rows: seq<Diff3Line>, texts: Keys, three: bool)
    requires 0 <= i < |blocks|
  {
    && HasRows(blocks[i], rows)
    && (forall j :: blocks[i].HasRow(j) ==>
          KindOf(rows[j], texts, three) == KindOf(rows[blocks[i].index], texts, three))
    && (i > 0 ==> HasRows(blocks[i - 1], rows)
                  && KindOf(rows[blocks[i].index], texts, three) != KindOf(rows[blocks[i - 1].index], texts, three))
  }

  lemma GroupedIsRuns(blocks: seq<Block>, rows: seq<Diff3Line>, texts: Keys, three: bool)
    requires AllFresh(blocks, rows, three) && Grouped(blocks, rows, three) && FromComparison(rows, texts, three)
    ensures LongestRuns(blocks, rows, texts, three)
  {
    hide IsSameKind, KindOf, FineTells, FreshList, WhiteSpaceExactly, Single;
    forall i | 0 <= i < |blocks|
      ensures IsRun(blocks, i, rows, texts, three)
    {
      var b := blocks[i];
      assert Fresh(b, rows, three);
      forall j | b.HasRow(j)
        ensures KindOf(rows[j], texts, three) == KindOf(rows[b.index], texts, three)
      {
        assert AlikeRow(b, rows, three, j);
        SameKindTells(rows, texts, three, j, b);
      }
      if i > 0 {
        assert Fresh(blocks[i - 1], rows, three) && KindChanges(blocks, rows, three, i);
        SameKindTells(rows, texts, three, b.index, blocks[i - 1]);
      }
    }
  }

  // ----- conflicts in white space

  /**
    A conflict in white space is a conflict of lines that agree in what is compared, or count as empty, or
    are all blank; and those that are marked equal in all inputs, or blank in all of them, are such conflicts.
   */
  lemma WhiteSpaceTells(rows: seq<Diff3Line>, j: int, three: bool, g: Basis)
    requires 0 <= j < |rows| && Judged(rows[j], g)
    ensures IsWhiteSpaceConflict(rows, j, three) ==>
              Decide(rows[j], three).conflict && DiffersInWhiteSpace(rows[j], three, g)
    ensures Decide(rows[j], three).conflict
            && ((rows[j].bAEqB && (three ==> rows[j].bAEqC)) || AllBlank(rows[j], three, g)) ==>
              IsWhiteSpaceConflict(rows, j, three)
  {
    hide Decide, Alike, IsBlank, CountsAsEmpty;
  }

  /** So a block whose conflict is one in white space has only rows of this kind. */
  lemma WhiteSpaceBlock(blocks: seq<Block>, i: int, rows: seq<Diff3Line>, three: bool, g: Basis)
    requires 0 <= i < |blocks| && Grouped(blocks, rows, three) && AllJudged(rows, g) && HasRows(blocks[i], rows)
    ensures blocks[i].whiteSpaceConflict ==>
              forall j :: blocks[i].HasRow(j) ==> DiffersInWhiteSpace(rows[j], three, g)
  {
    hide Judged, DiffersInWhiteSpace, IsWhiteSpaceConflict;
    if blocks[i].whiteSpaceConflict {
      assert WhiteSpaceExactly(blocks[i], rows, three);
      forall j | blocks[i].HasRow(j)
        ensures DiffersInWhiteSpace(rows[j], three, g)
      {
        assert IsWhiteSpaceConflict(rows, j, three);
        WhiteSpaceTells(rows, j, three, g);
      }
    }
  }
}
