/**
  One run of the merge (`MergeResultWindow::merge`): the blocks are built anew, unless only conflicts
  are to be solved; then an input may be chosen, and lines without source are removed.
 */
module MergeResults {
  import opened Lines
  import opened ManualDiffHelp
  import opened Diff3Lines
  import opened MergeRule
  import opened MergeLines
  import opened MergeBlocks
  import opened MergeTexts
  import opened MergeBlockLists

  /** What a run chooses. */
  datatype Choice = Nothing | Choose(sel: Selector, conflictsOnly: bool, whiteSpaceOnly: bool)

  /** Solving automatically chooses nothing, unless there is a default for conflicts in white space. */
  function ChoiceOf(bAutoSolve: bool, defaultSelector: Selector, bConflictsOnly: bool, bWhiteSpaceOnly: bool,
                    whiteSpaceDefault: Selector): Choice {
    if !bAutoSolve then Choose(defaultSelector, bConflictsOnly, bWhiteSpaceOnly)
    else if whiteSpaceDefault != Selector.None then Choose(whiteSpaceDefault, bConflictsOnly, true)
    else Nothing
  }

  /** The choice reaches the block. */
  predicate Reaches(c: Choice, b: Block) { c.Choose? && Touched(b, c.conflictsOnly, c.whiteSpaceOnly) }

  /** An input of the merge, or the conflict. */
  predicate Chooses(c: Choice) { c.Choose? ==> c.sel in {A, B, C, Invalid} }

  ghost predicate HasRows(b: Block, rows: seq<Diff3Line>) {
    0 <= b.index == b.id3l && 0 < b.length && b.index + b.length <= |rows|
  }

  function Choosing(b: Block, rows: seq<Diff3Line>, c: Choice): Block
    requires 0 <= b.index && b.index + b.length <= |rows|
  {
    if c.Choose? then Updated(b, rows, c.sel, c.conflictsOnly, c.whiteSpaceOnly) else b
  }

  /** All blocks after the choice. */
  ghost predicate AllChosenBy(from: seq<Block>, chosen: seq<Block>, rows: seq<Diff3Line>, c: Choice) {
    && |chosen| == |from|
    && forall i :: 0 <= i < |from| ==> HasRows(from[i], rows) && chosen[i] == Choosing(from[i], rows, c)
  }

  /** All blocks without the lines that have no source. */
  ghost predicate Cleared(chosen: seq<Block>, to: seq<Block>, rows: seq<Diff3Line>) {
    && |to| == |chosen|
    && forall i :: 0 <= i < |chosen| ==> InRows(chosen[i].list, |rows|) && to[i] == Clear(chosen[i], rows)
  }

  ghost function Clear(b: Block, rows: seq<Diff3Line>): Block
    requires InRows(b.list, |rows|)
  {
    b.(list := KeptLines(b.list, rows, |b.list|))
  }

  // ----- the text after a run

  /** What a block says afterwards: the chosen input, or what it said before. */
  ghost function TextAfter(b: Block, rows: seq<Diff3Line>, texts: Keys, c: Choice): seq<Line>
    requires HasRows(b, rows) && InRows(b.list, |rows|)
  {
    KeptInRows(b.list, rows, |b.list|);
    if Reaches(c, b) then RowTexts(rows[b.index..b.index + b.length], c.sel, texts)
    else Written(KeptLines(b.list, rows, |b.list|), rows, texts)
  }

  ghost predicate AllHaveRows(blocks: seq<Block>, rows: seq<Diff3Line>) {
    forall i :: 0 <= i < |blocks| ==> HasRows(blocks[i], rows) && InRows(blocks[i].list, |rows|)
  }

  ghost function AllTextsAfter(blocks: seq<Block>, rows: seq<Diff3Line>, texts: Keys, c: Choice): seq<Line>
    requires AllHaveRows(blocks, rows)
    decreases |blocks|
  {
    if |blocks| == 0 then []
    else AllTextsAfter(blocks[..|blocks| - 1], rows, texts, c) + TextAfter(blocks[|blocks| - 1], rows, texts, c)
  }

  /** Selecting nothing that exists gives no text. */
  lemma {:induction false} NoInput(rows: seq<Diff3Line>, texts: Keys)
    ensures RowTexts(rows, Invalid, texts) == []
  {
    if |rows| > 0 {
      NoInput(rows[1..], texts);
    }
  }

  lemma BlockText(b: Block, rows: seq<Diff3Line>, texts: Keys, c: Choice)
    requires HasRows(b, rows) && InRows(b.list, |rows|) && InFiles(rows, texts) && Chooses(c)
    ensures var d := Choosing(b, rows, c);
            && InRows(d.list, |rows|) && InRows(Clear(d, rows).list, |rows|)
            && Written(Clear(d, rows).list, rows, texts) == TextAfter(b, rows, texts, c)
  {
    hide KeptLines, Written, RowTexts, Chosen, Touched, NothingVisibleDropped;
    var d := Choosing(b, rows, c);
    if Reaches(c, b) {
      if c.sel == Invalid {
        NoInput(rows[b.index..b.index + b.length], texts);
        WrittenOne(NewLine(b.id3l), rows, texts);
        OneLineStays(d.list, rows);
      } else {
        ChosenSays(b, rows, texts, c.sel);
        assert d.list == Chosen(b, rows, c.sel) && d.list[..|d.list|] == d.list;
        DroppingIsInvisible(d.list, rows, texts, |d.list|);
      }
    }
    KeptInRows(d.list, rows, |d.list|);
  }

  lemma OneLineStays(list: seq<EditLine>, rows: seq<Diff3Line>)
    requires |list| == 1 && InRows(list, |rows|)
    ensures KeptLines(list, rows, 1) == list
  {
    FirstStays(list, rows);
    assert KeptLines(list, rows, 0) == [];
  }

  /** The whole list says what its blocks say. */
  lemma {:induction false} ListText(from: seq<Block>, chosen: seq<Block>, to: seq<Block>, rows: seq<Diff3Line>,
                                    texts: Keys, c: Choice)
    requires AllHaveRows(from, rows) && InFiles(rows, texts) && Chooses(c)
    requires AllChosenBy(from, chosen, rows, c) && Cleared(chosen, to, rows)
    ensures AllInRows(to, |rows|) && AllWritten(to, rows, texts) == AllTextsAfter(from, rows, texts, c)
    decreases |from|
  {
    hide Written, InRows, Choosing, Clear, TextAfter, InFiles, HasRows, Reaches;
    if |from| > 0 {
      var last := |from| - 1;
      ListText(from[..last], chosen[..last], to[..last], rows, texts, c);
      BlockText(from[last], rows, texts, c);
      ClearedList(chosen[last], rows);
      assert forall i :: 0 <= i < last ==> to[i] == to[..last][i];
    }
  }

  lemma ClearedList(b: Block, rows: seq<Diff3Line>)
    requires InRows(b.list, |rows|)
    ensures InRows(Clear(b, rows).list, |rows|) && (|b.list| > 0 ==> |Clear(b, rows).list| > 0)
  {
    KeptInRows(b.list, rows, |b.list|);
  }

  // ----- which conflicts stay

  lemma {:induction false} FirstKept(list: seq<EditLine>, rows: seq<Diff3Line>, k: int)
    requires InRows(list, |rows|) && 0 < k <= |list|
    ensures |KeptLines(list, rows, k)| > 0 && KeptLines(list, rows, k)[0] == list[0]
  {
    hide Dropped;
    if k == 1 {
      FirstStays(list, rows);
      assert KeptLines(list, rows, 0) == [];
    } else {
      FirstKept(list, rows, k - 1);
    }
  }

  lemma ClearUnsolved(b: Block, rows: seq<Diff3Line>)
    requires InRows(b.list, |rows|)
    ensures StartsUnsolved(Clear(b, rows)) <==> StartsUnsolved(b)
  {
    if |b.list| > 0 {
      FirstKept(b.list, rows, |b.list|);
    }
  }

  lemma {:induction false} ChosenSource(rows: seq<Diff3Line>, from: int, length: int, w: Selector)
    requires 0 <= from && from + length <= |rows|
    ensures forall i :: 0 <= i < |ChosenLines(rows, from, length, w)| ==> ChosenLines(rows, from, length, w)[i].src == w
    decreases length
  {
    if length > 0 {
      ChosenSource(rows, from, length - 1, w);
    }
  }

  /** Choosing an input solves the conflict of each block that the choice reaches, and of no other. */
  lemma SolvedIfReached(b: Block, rows: seq<Diff3Line>, c: Choice)
    requires HasRows(b, rows) && InRows(b.list, |rows|) && (c.Choose? ==> c.sel in {A, B, C})
    ensures var d := Choosing(b, rows, c);
            InRows(d.list, |rows|) && (StartsUnsolved(Clear(d, rows)) <==> StartsUnsolved(b) && !Reaches(c, b))
  {
    hide Touched, ChosenLines, KeptLines;
    var d := Choosing(b, rows, c);
    if Reaches(c, b) {
      ChosenSource(rows, b.index, b.length, c.sel);
    }
    ClearUnsolved(d, rows);
  }

  /** The conflict that the block starts with is out of reach for every choice that keeps the list. */
  predicate Stuck(b: Block) { StartsUnsolved(b) && !(b.delta && !b.HasModifiedText()) }

  /** A choice for conflicts or for white space leaves alone what somebody typed, and blocks without change. */
  lemma TypedTextStays(b: Block, rows: seq<Diff3Line>, c: Choice)
    requires HasRows(b, rows) && (c.Choose? ==> c.conflictsOnly || c.whiteSpaceOnly)
    requires b.HasModifiedText() || !b.delta
    ensures Choosing(b, rows, c) == b
  {
  }

  /** After a choice for all unsolved conflicts a block is unsolved exactly if it was stuck. */
  lemma UnsolvedIfStuck(b: Block, rows: seq<Diff3Line>, w: Selector)
    requires HasRows(b, rows) && InRows(b.list, |rows|) && w in {A, B, C}
    ensures var d := Choosing(b, rows, Choose(w, true, false));
            InRows(d.list, |rows|) && (StartsUnsolved(Clear(d, rows)) <==> Stuck(b))
  {
    hide ChosenLines, KeptLines, Clear, Updated, StartsUnsolved;
    SolvedIfReached(b, rows, Choose(w, true, false));
  }

  lemma AllUnsolvedAreStuck(from: seq<Block>, chosen: seq<Block>, to: seq<Block>, rows: seq<Diff3Line>, w: Selector)
    requires AllHaveRows(from, rows) && w in {A, B, C}
    requires AllChosenBy(from, chosen, rows, Choose(w, true, false)) && Cleared(chosen, to, rows)
    ensures forall i :: 0 <= i < |from| ==> (StartsUnsolved(to[i]) <==> Stuck(from[i]))
  {
    hide Choosing, Clear, StartsUnsolved, Stuck, HasRows, InRows;
    forall i | 0 <= i < |from|
      ensures StartsUnsolved(to[i]) <==> Stuck(from[i])
    {
      UnsolvedIfStuck(from[i], rows, w);
    }
  }

  // ----- the run

  lemma DivisionInRange(blocks: seq<Block>, rows: seq<Diff3Line>)
    requires Division(blocks, |rows|)
    ensures forall i :: 0 <= i < |blocks| ==> HasRows(blocks[i], rows)
    ensures AllInRows(blocks, |rows|) ==> AllHaveRows(blocks, rows)
  {
    hide InRows;
    forall i | 0 <= i < |blocks|
      ensures HasRows(blocks[i], rows)
    {
      BlockShape(blocks, |rows|, i);
    }
  }

  lemma FreshRows(blocks: seq<Block>, rows: seq<Diff3Line>, three: bool)
    requires AllFresh(blocks, rows, three)
    ensures AllInRows(blocks, |rows|)
  {
    hide Fresh, InRows;
    forall i | 0 <= i < |blocks|
      ensures InRows(blocks[i].list, |rows|)
    {
      FreshInRows(blocks[i], rows, three);
    }
  }

  lemma ChosenInRows(from: seq<Block>, chosen: seq<Block>, rows: seq<Diff3Line>, texts: Keys, c: Choice)
    requires AllHaveRows(from, rows) && InFiles(rows, texts) && Chooses(c) && AllChosenBy(from, chosen, rows, c)
    ensures AllInRows(chosen, |rows|)
  {
    hide InRows, HasRows, Choosing, InFiles;
    forall i | 0 <= i < |chosen|
      ensures InRows(chosen[i].list, |rows|)
    {
      BlockText(from[i], rows, texts, c);
    }
  }

  /**
    A run of the merge.  `from` are the blocks that it starts from, new ones unless only conflicts are to be
    solved, and `chosen` are the blocks after the choice.
   */
  method Merge(list: MergeBlockList, rows: seq<Diff3Line>, ghost texts: Keys, isThreeWay: bool, bAutoSolve: bool,
               defaultSelector: Selector, bConflictsOnly: bool, bWhiteSpaceOnly: bool, whiteSpaceDefault: Selector)
    returns (ghost from: seq<Block>, ghost chosen: seq<Block>)
    requires FromComparison(rows, texts, isThreeWay)
    requires bConflictsOnly ==> Division(list.blocks, |rows|) && AllInRows(list.blocks, |rows|)
    requires defaultSelector in {A, B, C, Invalid} && whiteSpaceDefault in {A, B, C, Selector.None}
    modifies list
    ensures if bConflictsOnly then from == old(list.blocks)
            else Division(from, |rows|) && AllFresh(from, rows, isThreeWay) && Grouped(from, rows, isThreeWay)
    ensures AllHaveRows(from, rows) && AllInRows(list.blocks, |rows|) && Division(chosen, |rows|)
    ensures var c := ChoiceOf(bAutoSolve, defaultSelector, bConflictsOnly, bWhiteSpaceOnly, whiteSpaceDefault);
            AllChosenBy(from, chosen, rows, c)
    ensures Cleared(chosen, list.blocks, rows)
  {
    hide Division, AllFresh, Grouped, InRows, InFiles, FineTells, Decidable, Updated, KeptLines;
    if !bConflictsOnly {
      if isThreeWay {
        RowsDecidable(rows, texts);
      }
      list.blocks := [];
      list.BuildFromDiff3(rows, isThreeWay);
      FreshRows(list.blocks, rows, isThreeWay);
    }
    from := list.blocks;
    DivisionInRange(from, rows);
    var selector, whiteSpaceOnly, bSolveWhiteSpaceConflicts := defaultSelector, bWhiteSpaceOnly, false;
    if bAutoSolve && whiteSpaceDefault != Selector.None {
      selector, whiteSpaceOnly, bSolveWhiteSpaceConflicts := whiteSpaceDefault, true, true;
    }
    if !bAutoSolve || bSolveWhiteSpaceConflicts {
      list.UpdateDefaults(selector, bConflictsOnly, whiteSpaceOnly, rows, texts, isThreeWay);
    }
    chosen := list.blocks;
    ChosenInRows(from, chosen, rows, texts,
                 ChoiceOf(bAutoSolve, defaultSelector, bConflictsOnly, bWhiteSpaceOnly, whiteSpaceDefault));
    list.RemoveEmptySources(rows, texts);
  }
}
