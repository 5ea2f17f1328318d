/**
  From rows to the merged file: grouping, choosing and writing; and the laws that hold for whole files.
 */
module MergeFiles {
  import opened Lines
  import opened ManualDiffHelp
  import opened Diff3Lines
  import opened RowEdits
  import opened MergeRule
  import opened MergeLines
  import opened MergeBlocks
  import opened MergeTexts
  import opened MergeBlockLists
  import opened MergeResults
  import opened MergeKinds
  import opened WhiteSpace
  import TextComparison
  import AlignFiles
  import Diff3Lists
  import Twins
  import TrimRanges
  import TrimDensity
  import FirstLines
  import Frontier

  lemma FreshIsEdited(blocks: seq<Block>, rows: seq<Diff3Line>, texts: Keys, three: bool)
    requires Division(blocks, |rows|) && AllFresh(blocks, rows, three) && FromComparison(rows, texts, three)
    ensures Edited(blocks, rows, texts, three)
  {
    hide Fresh, Sound, FineTells, Division;
    forall i | 0 <= i < |blocks|
      ensures Sound(blocks[i], rows, texts, three)
    {
      FreshIsSound(blocks[i], rows, texts, three);
    }
  }

  // ----- the merge of all rows

  /** What the three-way rule gives for a row. */
  ghost function RowOutcome(r: Diff3Line, texts: Keys): Outcome {
    ThreeWay(TextOf(r, A, texts), TextOf(r, B, texts), TextOf(r, C, texts))
  }

  /** A conflict contributes nothing. */
  ghost function Taken(o: Outcome): seq<Line> {
    if o.Take? then ToLines(o.text) else []
  }

  /** The merge by the three-way rule, row by row. */
  ghost function MergedTexts(rows: seq<Diff3Line>, texts: Keys): seq<Line> {
    if |rows| == 0 then [] else Taken(RowOutcome(rows[0], texts)) + MergedTexts(rows[1..], texts)
  }

  lemma {:induction false} MergedConcat(r: seq<Diff3Line>, s: seq<Diff3Line>, texts: Keys)
    ensures MergedTexts(r + s, texts) == MergedTexts(r, texts) + MergedTexts(s, texts)
  {
    hide RowOutcome, Taken;
    if |r| == 0 {
      assert r + s == s;
    } else {
      assert (r + s)[1..] == r[1..] + s;
      MergedConcat(r[1..], s, texts);
    }
  }

  lemma MergedOne(r: Diff3Line, texts: Keys)
    ensures MergedTexts([r], texts) == Taken(RowOutcome(r, texts))
    ensures MergedTexts([], texts) == []
  {
    assert [r][1..] == [];
  }

  /** The first k lines of a fresh block say what the rule gives for its first k rows. */
  lemma {:induction false} FreshTexts(b: Block, rows: seq<Diff3Line>, texts: Keys, k: int)
    requires Fresh(b, rows, true) && FromComparison(rows, texts, true) && 0 <= k <= b.length
    ensures b.conflict ==> MergedTexts(rows[b.index..b.index + k], texts) == []
    ensures !b.conflict ==> k <= |b.list| && InRows(b.list[..k], |rows|)
                            && Written(b.list[..k], rows, texts) == MergedTexts(rows[b.index..b.index + k], texts)
    decreases k
  {
    hide Written, MergedTexts, AlikeRow, FreshLine, FineTells, Decide, RowOutcome, ToLines, RowInFiles;
    FreshInRows(b, rows, true);
    if k == 0 {
      MergedOne(rows[b.index], texts);
      NoTexts(rows, A, texts);
      assert b.list[..0] == [] && rows[b.index..b.index] == [];
    } else {
      var j := b.index + (k - 1);
      FreshTexts(b, rows, texts, k - 1);
      assert rows[b.index..b.index + k] == rows[b.index..j] + [rows[j]];
      MergedConcat(rows[b.index..j], [rows[j]], texts);
      MergedOne(rows[j], texts);
      FreshRow(b, rows, texts, j);
      if !b.conflict {
        var e := b.list[k - 1];
        assert b.list[..k] == b.list[..k - 1] + [e] && e == FreshLine(rows, j, true);
        WrittenConcat(b.list[..k - 1], [e], rows, texts);
        WrittenOne(e, rows, texts);
      }
    }
  }

  /** The rule for a row of a fresh block. */
  lemma FreshRow(b: Block, rows: seq<Diff3Line>, texts: Keys, j: int)
    requires Fresh(b, rows, true) && FromComparison(rows, texts, true) && b.HasRow(j)
    ensures b.conflict <==> RowOutcome(rows[j], texts).Conflict?
    ensures var e := FreshLine(rows, j, true);
            !b.conflict ==> (if Shown(e) then [e.GetString(rows, texts)] else []) == Taken(RowOutcome(rows[j], texts))
  {
    hide Decide, FineTells, FreshList, TextOf, ThreeWay;
    assert AlikeRow(b, rows, true, j);
    DecideIsThreeWay(rows[j], texts);
    var d := Decide(rows[j], true);
    if !b.conflict && !d.lineRemoved {
      HasText(rows[j], d.src, texts);
    }
  }

  lemma HasText(r: Diff3Line, w: Selector, texts: Keys)
    requires FineTells(r, texts) && w in {A, B, C} && r.Has(w)
    ensures TextOf(r, w, texts).Some?
  {
  }

  /** A fresh block says what the rule gives for its rows, and nothing that it shows is dropped. */
  lemma FreshMerges(b: Block, rows: seq<Diff3Line>, texts: Keys)
    requires Fresh(b, rows, true) && FromComparison(rows, texts, true)
    ensures InRows(b.list, |rows|) && NothingVisibleDropped(b.list, rows, |b.list|)
    ensures Written(b.list, rows, texts) == MergedTexts(rows[b.index..b.index + b.length], texts)
  {
    hide Written, MergedTexts, FineTells, AlikeRow, FreshLine;
    FreshInRows(b, rows, true);
    FreshTexts(b, rows, texts, b.length);
    FreshLength(b, rows, true);
    if b.conflict {
      WrittenOne(NewLine(b.id3l), rows, texts);
    } else {
      assert b.list[..|b.list|] == b.list;
      forall i | 0 <= i < |b.list|
        ensures Shown(b.list[i]) ==> !Dropped(b.list, rows, i)
      {
        FreshVisible(b, rows, texts, i);
      }
    }
  }

  ghost predicate AnyConflict(blocks: seq<Block>) {
    exists i :: 0 <= i < |blocks| && blocks[i].conflict
  }

  ghost predicate AnyRowConflict(rows: seq<Diff3Line>, texts: Keys) {
    exists j :: 0 <= j < |rows| && RowOutcome(rows[j], texts).Conflict?
  }

  // ----- conflicts in white space that are solved by a default

  /** The conflict of the block is one of white space, for which there is a default. */
  predicate SolvedByDefault(b: Block, whiteSpaceDefault: Selector) {
    whiteSpaceDefault != Selector.None && b.whiteSpaceConflict
  }

  /** The default for conflicts in white space, and the three-way rule for everything else. */
  ghost function SolvedTexts(blocks: seq<Block>, rows: seq<Diff3Line>, texts: Keys, whiteSpaceDefault: Selector)
    : seq<Line>
    requires AllHaveRows(blocks, rows)
    decreases |blocks|
  {
    if |blocks| == 0 then []
    else SolvedTexts(blocks[..|blocks| - 1], rows, texts, whiteSpaceDefault)
         + SolvedText(blocks[|blocks| - 1], rows, texts, whiteSpaceDefault)
  }

  ghost function SolvedText(b: Block, rows: seq<Diff3Line>, texts: Keys, whiteSpaceDefault: Selector): seq<Line>
    requires HasRows(b, rows)
  {
    var part := rows[b.index..b.index + b.length];
    if SolvedByDefault(b, whiteSpaceDefault) then RowTexts(part, whiteSpaceDefault, texts) else MergedTexts(part, texts)
  }

  /** The row lies in a block that stays in conflict. */
  ghost predicate StaysInConflict(blocks: seq<Block>, j: int, whiteSpaceDefault: Selector) {
    exists i :: 0 <= i < |blocks| && blocks[i].HasRow(j) && blocks[i].conflict
                && !SolvedByDefault(blocks[i], whiteSpaceDefault)
  }

  /** Each row lies in a block. */
  lemma {:induction false} BlockOf(blocks: seq<Block>, n: int, j: int) returns (i: int)
    requires Division(blocks, n) && 0 <= j < n
    ensures 0 <= i < |blocks| && blocks[i].HasRow(j)
    decreases |blocks|
  {
    var last := |blocks| - 1;
    DivisionPrefix(blocks, n, last);
    if blocks[last].index <= j {
      i := last;
    } else {
      i := BlockOf(blocks[..last], blocks[last].index, j);
    }
  }

  /** No default solves a conflict in which the inputs differ in more than white space. */
  lemma RealConflictStays(blocks: seq<Block>, rows: seq<Diff3Line>, texts: Keys, g: Basis, j: int,
                          whiteSpaceDefault: Selector)
    requires Division(blocks, |rows|) && AllFresh(blocks, rows, true) && Grouped(blocks, rows, true)
    requires AllHaveRows(blocks, rows) && FromComparison(rows, texts, true) && AllJudged(rows, g) && 0 <= j < |rows|
    requires RowOutcome(rows[j], texts).Conflict? && !DiffersInWhiteSpace(rows[j], true, g)
    ensures StaysInConflict(blocks, j, whiteSpaceDefault)
  {
    hide Division, Fresh, Grouped, FineTells, RowOutcome, DiffersInWhiteSpace, Judged, RowInFiles, InRows;
    var i := BlockOf(blocks, |rows|, j);
    assert HasRows(blocks[i], rows);
    FreshRow(blocks[i], rows, texts, j);
    WhiteSpaceBlock(blocks, i, rows, true, g);
  }

  /** A block of conflicts in which no input has text that matters is solved by each default. */
  lemma BlankConflictSolved(blocks: seq<Block>, i: int, rows: seq<Diff3Line>, g: Basis, whiteSpaceDefault: Selector)
    requires 0 <= i < |blocks| && AllFresh(blocks, rows, true) && Grouped(blocks, rows, true) && AllJudged(rows, g)
    requires HasRows(blocks[i], rows) && blocks[i].conflict && whiteSpaceDefault != Selector.None
    requires forall j :: blocks[i].HasRow(j) ==> AllBlank(rows[j], true, g) || (rows[j].bAEqB && rows[j].bAEqC)
    ensures SolvedByDefault(blocks[i], whiteSpaceDefault)
  {
    hide Judged, DiffersInWhiteSpace, AllBlank, IsSameKind, FreshList, Decide, IsWhiteSpaceConflict, WhiteSpaceOnly;
    assert WhiteSpaceExactly(blocks[i], rows, true) && Fresh(blocks[i], rows, true);
    forall j | blocks[i].HasRow(j)
      ensures IsWhiteSpaceConflict(rows, j, true)
    {
      assert AlikeRow(blocks[i], rows, true, j);
      WhiteSpaceTells(rows, j, true, g);
    }
  }

  /** A fresh block is in conflict, and in white space only, exactly as it says; nobody typed into it. */
  lemma FreshState(b: Block, rows: seq<Diff3Line>, three: bool)
    requires Fresh(b, rows, three)
    ensures |b.list| > 0 && (StartsUnsolved(b) <==> b.conflict) && !b.HasModifiedText()
    ensures b.whiteSpaceConflict ==> b.conflict && b.delta
  {
    hide Decide, WhiteSpaceOnly;
    assert AlikeRow(b, rows, three, b.index);
    DecisionShape(rows[b.index], three);
    if !b.conflict {
      forall i | 0 <= i < |b.list|
        ensures !b.list[i].changed && !b.list[i].IsConflict()
      {
        assert AlikeRow(b, rows, three, b.index + i) && b.list[i] == FreshLine(rows, b.index + i, three);
        DecisionShape(rows[b.index + i], three);
      }
    }
  }

  lemma FreshReached(b: Block, rows: seq<Diff3Line>, three: bool, whiteSpaceDefault: Selector)
    requires Fresh(b, rows, three)
    ensures Reaches(ChoiceOf(true, Invalid, false, false, whiteSpaceDefault), b) <==>
              SolvedByDefault(b, whiteSpaceDefault)
  {
    hide Fresh;
    FreshState(b, rows, three);
  }

  /** What a fresh block says after the automatic merge. */
  lemma FreshSolved(b: Block, rows: seq<Diff3Line>, texts: Keys, whiteSpaceDefault: Selector)
    requires Fresh(b, rows, true) && FromComparison(rows, texts, true)
    requires HasRows(b, rows) && InRows(b.list, |rows|)
    ensures TextAfter(b, rows, texts, ChoiceOf(true, Invalid, false, false, whiteSpaceDefault))
            == SolvedText(b, rows, texts, whiteSpaceDefault)
  {
    hide Fresh, FineTells, Written, RowTexts, MergedTexts, Reaches, KeptLines, NothingVisibleDropped;
    FreshReached(b, rows, true, whiteSpaceDefault);
    FreshMerges(b, rows, texts);
    assert b.list[..|b.list|] == b.list;
    DroppingIsInvisible(b.list, rows, texts, |b.list|);
  }

  lemma {:induction false} AllSolved(blocks: seq<Block>, rows: seq<Diff3Line>, texts: Keys, whiteSpaceDefault: Selector)
    requires AllFresh(blocks, rows, true) && FromComparison(rows, texts, true) && AllHaveRows(blocks, rows)
    ensures AllTextsAfter(blocks, rows, texts, ChoiceOf(true, Invalid, false, false, whiteSpaceDefault))
            == SolvedTexts(blocks, rows, texts, whiteSpaceDefault)
    decreases |blocks|
  {
    hide Fresh, FineTells, HasRows, InRows, TextAfter, SolvedText, ChoiceOf;
    if |blocks| > 0 {
      AllSolved(blocks[..|blocks| - 1], rows, texts, whiteSpaceDefault);
      FreshSolved(blocks[|blocks| - 1], rows, texts, whiteSpaceDefault);
    }
  }

  /** Where the default does not come into play the result is the merge of the rows. */
  lemma {:induction false} SolvedIsMerged(blocks: seq<Block>, n: int, rows: seq<Diff3Line>, texts: Keys,
                                          whiteSpaceDefault: Selector)
    requires Division(blocks, n) && 0 <= n <= |rows| && AllHaveRows(blocks, rows)
    requires forall i :: 0 <= i < |blocks| ==> !SolvedByDefault(blocks[i], whiteSpaceDefault)
    ensures SolvedTexts(blocks, rows, texts, whiteSpaceDefault) == MergedTexts(rows[..n], texts)
    decreases |blocks|
  {
    hide MergedTexts, SolvedByDefault, InRows;
    if |blocks| == 0 {
      assert rows[..0] == [];
      NoMerge(texts);
    } else {
      var front, b := blocks[..|blocks| - 1], blocks[|blocks| - 1];
      DivisionPrefix(blocks, n, |blocks| - 1);
      LengthsNotNegative(front, b.index);
      assert Follows(blocks, |blocks| - 1);
      SolvedIsMerged(front, b.index, rows, texts, whiteSpaceDefault);
      assert rows[..n] == rows[..b.index] + rows[b.index..n];
      MergedConcat(rows[..b.index], rows[b.index..n], texts);
    }
  }

  lemma NoMerge(texts: Keys)
    ensures MergedTexts([], texts) == []
  {
  }

  /** A block is in conflict exactly if a row is. */
  lemma {:induction false} ConflictsAgree(blocks: seq<Block>, n: int, rows: seq<Diff3Line>, texts: Keys)
    requires Division(blocks, n) && 0 <= n <= |rows| && AllFresh(blocks, rows, true)
    requires FromComparison(rows, texts, true)
    ensures AnyConflict(blocks) <==> AnyRowConflict(rows[..n], texts)
    decreases |blocks|
  {
    hide Fresh, FineTells, RowOutcome;
    if |blocks| == 0 {
      assert rows[..0] == [];
    } else {
      DivisionPrefix(blocks, n, |blocks| - 1);
      LengthsNotNegative(blocks[..|blocks| - 1], blocks[|blocks| - 1].index);
      assert Follows(blocks, |blocks| - 1);
      ConflictsAgree(blocks[..|blocks| - 1], blocks[|blocks| - 1].index, rows, texts);
      ConflictsOf(blocks, n, rows, texts);
    }
  }

  lemma ConflictsOf(blocks: seq<Block>, n: int, rows: seq<Diff3Line>, texts: Keys)
    requires |blocks| > 0 && FromComparison(rows, texts, true) && Fresh(blocks[|blocks| - 1], rows, true)
    requires blocks[|blocks| - 1].index + blocks[|blocks| - 1].length == n <= |rows|
    requires AnyConflict(blocks[..|blocks| - 1]) <==> AnyRowConflict(rows[..blocks[|blocks| - 1].index], texts)
    ensures AnyConflict(blocks) <==> AnyRowConflict(rows[..n], texts)
  {
    hide FineTells, RowOutcome, AlikeRow, FreshList, RowInFiles;
    var last := |blocks| - 1;
    var b := blocks[last];
    forall j | b.HasRow(j)
      ensures b.conflict <==> RowOutcome(rows[j], texts).Conflict?
    {
      FreshRow(b, rows, texts, j);
    }
    if AnyConflict(blocks) {
      var i :| 0 <= i < |blocks| && blocks[i].conflict;
      if i < last {
        assert blocks[..last][i].conflict;
        var j :| 0 <= j < b.index && RowOutcome(rows[..b.index][j], texts).Conflict?;
        assert rows[..n][j] == rows[j];
      } else {
        assert b.HasRow(b.index) && rows[..n][b.index] == rows[b.index];
      }
    }
    if AnyRowConflict(rows[..n], texts) {
      var j :| 0 <= j < n && RowOutcome(rows[..n][j], texts).Conflict?;
      if j < b.index {
        assert rows[..b.index][j] == rows[j];
        var i :| 0 <= i < last && blocks[..last][i].conflict;
        assert blocks[i].conflict;
      } else {
        assert b.HasRow(j) && blocks[last].conflict;
      }
    }
  }

  // ----- one input wins everywhere

  /** What every row is given is what input w has there. */
  ghost predicate Wins(rows: seq<Diff3Line>, texts: Keys, w: Selector) {
    forall j :: 0 <= j < |rows| ==> RowOutcome(rows[j], texts) == Take(TextOf(rows[j], w, texts))
  }

  /** Then the merge is this input. */
  lemma {:induction false} WinnerTakesAll(rows: seq<Diff3Line>, texts: Keys, w: Selector)
    requires Wins(rows, texts, w)
    ensures MergedTexts(rows, texts) == RowTexts(rows, w, texts) && !AnyRowConflict(rows, texts)
  {
    hide RowOutcome, TextOf;
    if |rows| > 0 {
      forall j | 0 <= j < |rows[1..]|
        ensures RowOutcome(rows[1..][j], texts) == Take(TextOf(rows[1..][j], w, texts))
      {
        assert rows[1..][j] == rows[j + 1];
      }
      WinnerTakesAll(rows[1..], texts, w);
    }
  }

  lemma FreshLength(b: Block, rows: seq<Diff3Line>, three: bool)
    requires Fresh(b, rows, three)
    ensures !b.conflict ==> |b.list| == b.length
  {
  }

  /** A visible line of a fresh block has a source. */
  lemma FreshVisible(b: Block, rows: seq<Diff3Line>, texts: Keys, i: int)
    requires Fresh(b, rows, true) && !b.conflict && 0 <= i < |b.list| && InRows(b.list, |rows|)
    requires var r := rows[b.index + i]; FineTells(r, texts) && (r.Has(A) || r.Has(B) || r.Has(C))
    ensures Shown(b.list[i]) ==> b.list[i].HasSource(rows)
  {
    hide FineTells, Decide;
    var j := b.index + i;
    assert AlikeRow(b, rows, true, j) && b.list[i] == FreshLine(rows, j, true);
    DecideIsThreeWay(rows[j], texts);
  }

  /** The side that did not change anything leaves the field to the other one. */
  lemma OtherSideWins(rows: seq<Diff3Line>, texts: Keys)
    ensures TextComparison.SameEverywhere(rows, A, B, texts) ==> Wins(rows, texts, C)
    ensures TextComparison.SameEverywhere(rows, C, A, texts) ==> Wins(rows, texts, B)
  {
    hide TextOf;
  }

  /**
    Choosing one input for everything gives this input: whatever was split, joined, chosen or typed before,
    the list is built anew, and the output consists of the lines of this input with line feeds between them.
   */
  method ChooseEverywhere(list: MergeBlockList, rows: seq<Diff3Line>, texts: Keys, isThreeway: bool, w: Selector,
                          lineFeed: Line)
    returns (out: Line)
    requires FromComparison(rows, texts, isThreeway) && TakesPart(w, isThreeway)
    modifies list
    ensures out == Joined(RowTexts(rows, w, texts), lineFeed)
    ensures Complete(rows, w, |texts.Of(w)|) ==> out == Joined(texts.Of(w), lineFeed)
  {
    hide FineTells, Division, AllFresh, AllSound, AllChosen, AllInRows, AllWritten, RowTexts, Joined, Complete,
         RowInFiles, NothingVisibleDroppedAnywhere, Grouped, Updated, KeptLines;
    ghost var from, chosen := Merge(list, rows, texts, isThreeway, false, w, false, false, Selector.None);
    FreshIsEdited(from, rows, texts, isThreeway);
    UpdatedAll(from, chosen, rows, texts, isThreeway, w, false, false);
    ChosenTextIs(chosen, rows, texts, w);
    KeptAll(chosen, list.blocks, rows, texts);
    out := list.Write(rows, texts, lineFeed);
    if Complete(rows, w, |texts.Of(w)|) {
      CompleteText(rows, w, texts);
    }
  }

  /**
    The automatic merge.  The output is the merge by the three-way rule, row by row, where conflicts
    contribute nothing, except that blocks that conflict in white space only follow the default for them, if
    there is one.  Conflicts are reported exactly if there are others; a conflict of lines that neither agree
    in what is compared nor are blank is always among them.  So if B has in every row what A has,
    the output is C; if C has in every row what A has, the output is B.
   */
  method AutoMerge(rows: seq<Diff3Line>, texts: Keys, whiteSpaceDefault: Selector, lineFeed: Line)
    returns (out: Line, conflicts: bool, ghost blocks: seq<Block>)
    requires FromComparison(rows, texts, true) && whiteSpaceDefault in {A, B, C, Selector.None}
    ensures Division(blocks, |rows|) && AllFresh(blocks, rows, true) && Grouped(blocks, rows, true)
    ensures AllHaveRows(blocks, rows) && out == Joined(SolvedTexts(blocks, rows, texts, whiteSpaceDefault), lineFeed)
    ensures conflicts <==>
              exists i :: 0 <= i < |blocks| && blocks[i].conflict && !SolvedByDefault(blocks[i], whiteSpaceDefault)
    ensures LongestRuns(blocks, rows, texts, true)
    ensures forall g, j :: AllJudged(rows, g) && 0 <= j < |rows| && RowOutcome(rows[j], texts).Conflict?
                           && !DiffersInWhiteSpace(rows[j], true, g) ==>
                             conflicts && StaysInConflict(blocks, j, whiteSpaceDefault)
    ensures whiteSpaceDefault == Selector.None ==> (conflicts <==> AnyRowConflict(rows, texts))
    ensures whiteSpaceDefault == Selector.None || !AnyRowConflict(rows, texts) ==>
              out == Joined(MergedTexts(rows, texts), lineFeed)
    ensures forall w :: TakesPart(w, true) && Wins(rows, texts, w) ==>
              !conflicts && out == Joined(RowTexts(rows, w, texts), lineFeed)
    ensures TextComparison.SameEverywhere(rows, A, B, texts) ==>
              !conflicts && out == Joined(RowTexts(rows, C, texts), lineFeed)
    ensures TextComparison.SameEverywhere(rows, C, A, texts) ==>
              !conflicts && out == Joined(RowTexts(rows, B, texts), lineFeed)
  {
    hide FineTells, Division, Fresh, AllInRows, AllWritten, RowTexts, MergedTexts, Joined, RowInFiles, Grouped, Wins,
         TextComparison.SameEverywhere, AnyRowConflict, SolvedTexts, AllTextsAfter, HasRows, InRows, StartsUnsolved,
         Choosing, Clear, ChoiceOf, Reaches, SolvedByDefault, Unsolved, AllJudged, DiffersInWhiteSpace, RowOutcome,
         LongestRuns;
    var list := new MergeBlockList();
    ghost var chosen;
    blocks, chosen := Merge(list, rows, texts, true, true, Invalid, false, false, whiteSpaceDefault);
    ghost var c := ChoiceOf(true, Invalid, false, false, whiteSpaceDefault);
    ChoosesDefault(whiteSpaceDefault);
    ListText(blocks, chosen, list.blocks, rows, texts, c);
    AllSolved(blocks, rows, texts, whiteSpaceDefault);
    forall i | 0 <= i < |blocks|
      ensures |list.blocks[i].list| > 0
      ensures StartsUnsolved(list.blocks[i]) <==> blocks[i].conflict && !SolvedByDefault(blocks[i], whiteSpaceDefault)
    {
      FreshAfter(blocks[i], rows, whiteSpaceDefault);
    }
    var n := list.NumberOfUnsolvedConflicts();
    conflicts := n > 0;
    UnsolvedMeansAny(list.blocks);
    out := list.Write(rows, texts, lineFeed);
    ConflictsAgree(blocks, |rows|, rows, texts);
    assert rows[..|rows|] == rows;
    if whiteSpaceDefault == Selector.None || !AnyRowConflict(rows, texts) {
      NoneSolvedByDefault(blocks, rows, whiteSpaceDefault);
      SolvedIsMerged(blocks, |rows|, rows, texts, whiteSpaceDefault);
    }
    forall w | TakesPart(w, true) && Wins(rows, texts, w)
      ensures !conflicts && out == Joined(RowTexts(rows, w, texts), lineFeed)
    {
      WinnerTakesAll(rows, texts, w);
    }
    OtherSideWins(rows, texts);
    GroupedIsRuns(blocks, rows, texts, true);
    forall g, j | AllJudged(rows, g) && 0 <= j < |rows| && RowOutcome(rows[j], texts).Conflict?
                  && !DiffersInWhiteSpace(rows[j], true, g)
      ensures conflicts && StaysInConflict(blocks, j, whiteSpaceDefault)
    {
      RealConflictStays(blocks, rows, texts, g, j, whiteSpaceDefault);
    }
  }

  lemma ChoosesDefault(whiteSpaceDefault: Selector)
    requires whiteSpaceDefault in {A, B, C, Selector.None}
    ensures Chooses(ChoiceOf(true, Invalid, false, false, whiteSpaceDefault))
  {
  }

  /** After the automatic merge a block is unsolved exactly if it is in conflict and there is no default for it. */
  lemma FreshAfter(b: Block, rows: seq<Diff3Line>, whiteSpaceDefault: Selector)
    requires Fresh(b, rows, true) && HasRows(b, rows) && InRows(b.list, |rows|)
    requires whiteSpaceDefault in {A, B, C, Selector.None}
    ensures var d := Choosing(b, rows, ChoiceOf(true, Invalid, false, false, whiteSpaceDefault));
            && InRows(d.list, |rows|) && |Clear(d, rows).list| > 0
            && (StartsUnsolved(Clear(d, rows)) <==> b.conflict && !SolvedByDefault(b, whiteSpaceDefault))
  {
    hide Fresh, KeptLines, ChosenLines, Touched, SolvedByDefault, StartsUnsolved, Clear;
    FreshState(b, rows, true);
    FreshReached(b, rows, true, whiteSpaceDefault);
    SolvedIfReached(b, rows, ChoiceOf(true, Invalid, false, false, whiteSpaceDefault));
    ClearedList(Choosing(b, rows, ChoiceOf(true, Invalid, false, false, whiteSpaceDefault)), rows);
  }

  lemma NoneSolvedByDefault(blocks: seq<Block>, rows: seq<Diff3Line>, whiteSpaceDefault: Selector)
    requires AllFresh(blocks, rows, true) && (whiteSpaceDefault == Selector.None || !AnyConflict(blocks))
    ensures forall i :: 0 <= i < |blocks| ==> !SolvedByDefault(blocks[i], whiteSpaceDefault)
  {
    hide Fresh;
    forall i | 0 <= i < |blocks|
      ensures !SolvedByDefault(blocks[i], whiteSpaceDefault)
    {
      FreshState(blocks[i], rows, true);
    }
  }

  // ----- from files to the output

  /** The displayed files have the lines that were compared, though perhaps with other texts. */
  predicate Displays(shown: TextComparison.Displayed, compared: TextComparison.Displayed) {
    |shown.a| == |compared.a| && |shown.b| == |compared.b| && |shown.c| == |compared.c|
  }

  /** The rows of three files, with what is known about their texts. */
  method PrepareThree(s: ManualDiffHelp.Setup, compared: TextComparison.Displayed, entries: seq<Entry>,
                      shown: TextComparison.Displayed, ignoreComments: bool, ignoreWhite: bool, cap: int)
    returns (rows: seq<Diff3Line>, equalAB: bool, equalBC: bool, equalAC: bool)
    requires s.nbuckets > 0 && |compared.a| + |compared.b| < Frontier.GNULINEREF_MAX
    requires |compared.a| + |compared.c| < Frontier.GNULINEREF_MAX
    requires Ascending(Borders(entries, A, B), 0, 0, |compared.a|, |compared.b|)
    requires Ascending(Borders(entries, A, C), 0, 0, |compared.a|, |compared.c|)
    requires Displays(shown, compared)
    ensures FromComparison(rows, shown.Texts(), true)
    ensures AllJudged(rows, Basis(s.o, compared, shown, ignoreComments, ignoreWhite))
    ensures Complete(rows, A, |compared.a|) && Complete(rows, B, |compared.b|) && Complete(rows, C, |compared.c|)
    ensures equalAB <==> TextComparison.SameEverywhere(rows, A, B, shown.Texts())
    ensures equalAC <==> TextComparison.SameEverywhere(rows, C, A, shown.Texts())
    ensures entries == [] && Twins.EqualTexts(compared.Texts(), A, B) && shown.Texts().a == shown.Texts().b ==> equalAB
    ensures entries == [] && Twins.EqualTexts(compared.Texts(), A, C) && shown.Texts().a == shown.Texts().c ==> equalAC
  {
    hide Ascending, Borders, Complete, InFile, FineTells, TextComparison.SameEverywhere, Twins.AllTwins,
         Twins.EqualTexts, TextComparison.SameLines, TextComparison.AllFlags, AlignFiles.AlignedBy,
         AlignFiles.PairsFound, TrimRanges.Whole, FirstLines.Successive, TrimDensity.Packed, AllJustified, AllJudged,
         Diff3Lists.Whitened, AllBare;
    var list := AlignFiles.AlignThree(s, compared.Texts(), entries);
    CompleteInFiles(list.rows, shown.Texts());
    ghost var before := list.rows;
    equalAB, equalBC, equalAC := TextComparison.CompareAllTexts(list, shown, ignoreComments, ignoreWhite, cap);
    ghost var seen := list.rows;
    SameLinesComplete(before, seen, |compared.a|, |compared.b|, |compared.c|);
    LinesInFiles(seen, shown, compared);
    list.CalcWhiteDiff3Lines(compared.a, compared.b, compared.c, ignoreComments);
    rows := list.rows;
    JudgedRows(before, seen, rows, Basis(s.o, compared, shown, ignoreComments, ignoreWhite));
    SameLinesComplete(before, rows, |compared.a|, |compared.b|, |compared.c|);
    StillTells(seen, rows, compared, shown.Texts(), ignoreComments);
    if Twins.AllTwins(before, A, B, C) && shown.Texts().a == shown.Texts().b {
      SideBySide(before, rows, B, C, shown.Texts());
    }
    if Twins.AllTwins(before, A, C, B) && shown.Texts().a == shown.Texts().c {
      SideBySide(before, rows, C, B, shown.Texts());
    }
  }

  lemma LinesInFiles(rows: seq<Diff3Line>, shown: TextComparison.Displayed, compared: TextComparison.Displayed)
    requires InFiles(rows, shown.Texts()) && Displays(shown, compared)
    ensures forall k :: 0 <= k < |rows| ==>
              InFile(rows[k], A, |compared.a|) && InFile(rows[k], B, |compared.b|) && InFile(rows[k], C, |compared.c|)
  {
    forall k | 0 <= k < |rows|
      ensures InFile(rows[k], A, |compared.a|) && InFile(rows[k], B, |compared.b|) && InFile(rows[k], C, |compared.c|)
    {
      assert RowInFiles(rows[k], shown.Texts());
    }
  }

  /** The look for white lines concerns neither the lines nor what is known about their texts. */
  lemma StillTells(before: seq<Diff3Line>, after: seq<Diff3Line>, compared: TextComparison.Displayed, texts: Keys,
                   ignoreComments: bool)
    requires FromComparison(before, texts, true) && |after| == |before|
    requires forall k :: 0 <= k < |after| ==>
               Diff3Lists.Whitened(before[k], after[k], compared.a, compared.b, compared.c, ignoreComments)
    ensures FromComparison(after, texts, true)
    ensures forall v, w :: TextComparison.SameEverywhere(before, v, w, texts) ==>
                             TextComparison.SameEverywhere(after, v, w, texts)
    ensures forall v, w :: TextComparison.SameEverywhere(after, v, w, texts) ==>
                             TextComparison.SameEverywhere(before, v, w, texts)
  {
    hide FineTells, RowInFiles, TextOf;
    forall k | 0 <= k < |after|
      ensures FineTells(after[k], texts) && RowInFiles(after[k], texts)
      ensures after[k].Has(A) || after[k].Has(B) || after[k].Has(C)
      ensures forall w :: TextOf(after[k], w, texts) == TextOf(before[k], w, texts)
    {
      RowStillTells(before[k], after[k], compared, texts, ignoreComments);
    }
  }

  lemma RowStillTells(before: Diff3Line, after: Diff3Line, compared: TextComparison.Displayed, texts: Keys,
                      ignoreComments: bool)
    requires Diff3Lists.Whitened(before, after, compared.a, compared.b, compared.c, ignoreComments)
    ensures forall w :: after.Has(w) == before.Has(w) && TextOf(after, w, texts) == TextOf(before, w, texts)
    ensures FineTells(after, texts) == FineTells(before, texts)
    ensures RowInFiles(after, texts) == RowInFiles(before, texts)
  {
  }

  /** Inputs with the same lines that stand beside each other have the same in every row. */
  lemma SideBySide(before: seq<Diff3Line>, after: seq<Diff3Line>, q: Selector, t: Selector, texts: Keys)
    requires Three(A, q, t) && TextComparison.SameLines(before, after) && texts.a == texts.Of(q)
    requires Twins.AllTwins(before, A, q, t)
    ensures TextComparison.SameEverywhere(after, A, q, texts) && TextComparison.SameEverywhere(after, q, A, texts)
  {
    hide Diff3Line.Line;
    forall k | 0 <= k < |after|
      ensures TextOf(after[k], A, texts) == TextOf(after[k], q, texts)
    {
      assert TextComparison.LinesAlike(before[k], after[k]) && Twins.Twin(before[k], A, q, t);
    }
  }

  /** Choosing X for everything in a merge of three files writes the file X. */
  method MergeChoosing(s: ManualDiffHelp.Setup, compared: TextComparison.Displayed, entries: seq<Entry>,
                       shown: TextComparison.Displayed, ignoreComments: bool, ignoreWhite: bool, cap: int, w: Selector,
                       lineFeed: Line)
    returns (out: Line)
    requires s.nbuckets > 0 && |compared.a| + |compared.b| < Frontier.GNULINEREF_MAX
    requires |compared.a| + |compared.c| < Frontier.GNULINEREF_MAX
    requires Ascending(Borders(entries, A, B), 0, 0, |compared.a|, |compared.b|)
    requires Ascending(Borders(entries, A, C), 0, 0, |compared.a|, |compared.c|)
    requires Displays(shown, compared) && w in {A, B, C}
    ensures out == Joined(shown.Texts().Of(w), lineFeed)
  {
    hide Ascending, Borders, FromComparison, Complete, Joined, RowTexts;
    var rows, equalAB, equalBC, equalAC := PrepareThree(s, compared, entries, shown, ignoreComments, ignoreWhite, cap);
    var list := new MergeBlockList();
    out := ChooseEverywhere(list, rows, shown.Texts(), true, w, lineFeed);
  }

  /**
    The automatic merge of three files.  If no manual ranges are given and B is A as it is compared and as
    it is displayed, the output is C; if C is A, the output is B.  With manual ranges the same holds if B,
    or C, has in every row what A has.  Without a default for conflicts in white space, or without conflicts,
    it is the merge of the rows by the three-way rule; with one, conflicts of lines that neither agree in what
    is compared nor are blank remain conflicts.
   */
  method MergeAutomatically(s: ManualDiffHelp.Setup, compared: TextComparison.Displayed, entries: seq<Entry>,
                            shown: TextComparison.Displayed, ignoreComments: bool, ignoreWhite: bool, cap: int,
                            whiteSpaceDefault: Selector, lineFeed: Line)
    returns (out: Line, conflicts: bool, equalAB: bool, equalAC: bool, ghost rows: seq<Diff3Line>,
             ghost blocks: seq<Block>)
    requires s.nbuckets > 0 && |compared.a| + |compared.b| < Frontier.GNULINEREF_MAX
    requires |compared.a| + |compared.c| < Frontier.GNULINEREF_MAX
    requires Ascending(Borders(entries, A, B), 0, 0, |compared.a|, |compared.b|)
    requires Ascending(Borders(entries, A, C), 0, 0, |compared.a|, |compared.c|)
    requires Displays(shown, compared) && whiteSpaceDefault in {A, B, C, Selector.None}
    ensures entries == [] && Twins.EqualTexts(compared.Texts(), A, B) && shown.Texts().a == shown.Texts().b ==>
              !conflicts && out == Joined(shown.Texts().c, lineFeed)
    ensures entries == [] && Twins.EqualTexts(compared.Texts(), A, C) && shown.Texts().a == shown.Texts().c ==>
              !conflicts && out == Joined(shown.Texts().b, lineFeed)
    ensures Complete(rows, A, |compared.a|) && Complete(rows, B, |compared.b|) && Complete(rows, C, |compared.c|)
    ensures equalAB <==> TextComparison.SameEverywhere(rows, A, B, shown.Texts())
    ensures equalAC <==> TextComparison.SameEverywhere(rows, C, A, shown.Texts())
    ensures Division(blocks, |rows|) && LongestRuns(blocks, rows, shown.Texts(), true)
    ensures AllHaveRows(blocks, rows)
            && out == Joined(SolvedTexts(blocks, rows, shown.Texts(), whiteSpaceDefault), lineFeed)
    ensures forall j :: 0 <= j < |rows| && RowOutcome(rows[j], shown.Texts()).Conflict?
                        && !DiffersInWhiteSpace(rows[j], true,
                                                Basis(s.o, compared, shown, ignoreComments, ignoreWhite)) ==>
                          conflicts && StaysInConflict(blocks, j, whiteSpaceDefault)
    ensures whiteSpaceDefault == Selector.None ==> (conflicts <==> AnyRowConflict(rows, shown.Texts()))
    ensures whiteSpaceDefault == Selector.None || !AnyRowConflict(rows, shown.Texts()) ==>
              out == Joined(MergedTexts(rows, shown.Texts()), lineFeed)
    ensures equalAB ==> !conflicts && out == Joined(shown.Texts().c, lineFeed) && shown.Texts().a == shown.Texts().b
    ensures equalAC ==> !conflicts && out == Joined(shown.Texts().b, lineFeed) && shown.Texts().a == shown.Texts().c
  {
    hide Ascending, Borders, FromComparison, Complete, Joined, RowTexts, TextComparison.SameEverywhere, Wins,
         MergedTexts, AnyRowConflict, SolvedTexts, Division, AllFresh, Grouped, AllHaveRows, AllJudged,
         DiffersInWhiteSpace, RowOutcome, StaysInConflict, LongestRuns;
    var theRows, equalBC;
    theRows, equalAB, equalBC, equalAC := PrepareThree(s, compared, entries, shown, ignoreComments, ignoreWhite, cap);
    rows := theRows;
    out, conflicts, blocks := AutoMerge(theRows, shown.Texts(), whiteSpaceDefault, lineFeed);
    FilesOf(theRows, shown.Texts());
    if equalAB {
      SameFiles(theRows, shown.Texts(), A, B);
    }
    if equalAC {
      SameFiles(theRows, shown.Texts(), C, A);
    }
  }

  lemma FilesOf(rows: seq<Diff3Line>, texts: Keys)
    requires FromComparison(rows, texts, true)
    requires Complete(rows, A, |texts.a|) && Complete(rows, B, |texts.b|) && Complete(rows, C, |texts.c|)
    ensures RowTexts(rows, A, texts) == texts.a && RowTexts(rows, B, texts) == texts.b
    ensures RowTexts(rows, C, texts) == texts.c
  {
    hide Complete, RowTexts, FineTells;
    CompleteText(rows, A, texts);
    CompleteText(rows, B, texts);
    CompleteText(rows, C, texts);
  }

  /** Rows that agree everywhere make equal files. */
  lemma {:induction false} SameFiles(rows: seq<Diff3Line>, texts: Keys, v: Selector, w: Selector)
    requires TextComparison.SameEverywhere(rows, v, w, texts)
    ensures RowTexts(rows, v, texts) == RowTexts(rows, w, texts)
  {
    hide TextOf;
    if |rows| > 0 {
      forall k | 0 <= k < |rows[1..]|
        ensures TextOf(rows[1..][k], v, texts) == TextOf(rows[1..][k], w, texts)
      {
        assert rows[1..][k] == rows[k + 1];
      }
      SameFiles(rows[1..], texts, v, w);
    }
  }

  lemma SameLinesComplete(before: seq<Diff3Line>, after: seq<Diff3Line>, a: int, b: int, c: int)
    requires TextComparison.SameLines(before, after)
    requires Complete(before, A, a) && Complete(before, B, b) && Complete(before, C, c)
    ensures Complete(after, A, a) && Complete(after, B, b) && Complete(after, C, c)
    ensures Diff3Lists.Occupied(before) ==> Diff3Lists.Occupied(after)
  {
    hide LinesOf, Diff3Line.Line;
    forall w
      ensures LinesOf(after, w) == LinesOf(before, w)
    {
      forall k | 0 <= k < |after|
        ensures after[k].Line(w) == before[k].Line(w)
      {
        assert TextComparison.LinesAlike(before[k], after[k]);
      }
      SameColumn(before, after, w);
    }
    forall k, w | 0 <= k < |after|
      ensures after[k].Has(w) == before[k].Has(w)
    {
      assert TextComparison.LinesAlike(before[k], after[k]);
    }
  }
}
