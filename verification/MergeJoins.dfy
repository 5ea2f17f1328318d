/**
  Solving conflicts in a list that was edited before, in particular one in which two neighbouring blocks
  were joined.
 */
module MergeJoins {
  import opened Lines
  import opened ManualDiffHelp
  import opened Diff3Lines
  import opened MergeRule
  import opened MergeLines
  import opened MergeBlocks
  import opened MergeTexts
  import opened MergeBlockLists
  import opened MergeResults

  /**
    Chooses an input for all unsolved conflicts and writes the result.  The list is kept as it was edited: a
    block that starts unsolved stays so exactly if the choice does not reach it, and each block that the
    choice reaches becomes what the input has there.
   */
  method ChooseForUnsolved(list: MergeBlockList, rows: seq<Diff3Line>, texts: Keys, isThreeWay: bool, w: Selector,
                           bWhiteSpaceOnly: bool, lineFeed: Line)
    returns (out: Line)
    requires FromComparison(rows, texts, isThreeWay) && w in {A, B, C}
    requires Division(list.blocks, |rows|) && AllInRows(list.blocks, |rows|)
    modifies list
    ensures |list.blocks| == |old(list.blocks)| && AllHaveRows(old(list.blocks), rows)
    ensures forall i :: 0 <= i < |list.blocks| ==>
              (StartsUnsolved(list.blocks[i]) <==>
                 StartsUnsolved(old(list.blocks)[i]) && !Touched(old(list.blocks)[i], true, bWhiteSpaceOnly))
    ensures !bWhiteSpaceOnly ==>
              forall i :: 0 <= i < |list.blocks| ==> (StartsUnsolved(list.blocks[i]) <==> Stuck(old(list.blocks)[i]))
    ensures out == Joined(AllTextsAfter(old(list.blocks), rows, texts, Choose(w, true, bWhiteSpaceOnly)), lineFeed)
  {
    hide Division, InFiles, FineTells, AllInRows, AllWritten, Joined, AllTextsAfter, Touched, StartsUnsolved, Stuck,
         Choosing, Clear, HasRows, InRows;
    ghost var before := list.blocks;
    ghost var from, chosen := Merge(list, rows, texts, isThreeWay, false, w, true, bWhiteSpaceOnly, Selector.None);
    ghost var c := Choose(w, true, bWhiteSpaceOnly);
    forall i | 0 <= i < |from|
      ensures StartsUnsolved(list.blocks[i]) <==> StartsUnsolved(from[i]) && !Touched(from[i], true, bWhiteSpaceOnly)
    {
      SolvedIfReached(from[i], rows, c);
    }
    if !bWhiteSpaceOnly {
      AllUnsolvedAreStuck(from, chosen, list.blocks, rows, w);
    }
    ListText(from, chosen, list.blocks, rows, texts, c);
    out := list.Write(rows, texts, lineFeed);
  }

  // ----- joined blocks

  /** The conflict line of a joined block is out of reach exactly if neither of the two had a change. */
  lemma JoinedStuck(b: Block, c: Block)
    ensures Stuck(Join(b, c)) <==> !b.delta && !c.delta
  {
  }

  /** What a joined block says after the choice: all its rows, or nothing. */
  lemma JoinedText(blocks: seq<Block>, k: int, rows: seq<Diff3Line>, texts: Keys, w: Selector)
    requires Division(blocks, |rows|) && 0 <= k && k + 1 < |blocks|
    ensures var b := Joining(blocks, k)[k];
            && b == Join(blocks[k], blocks[k + 1]) && HasRows(b, rows) && InRows(b.list, |rows|)
            && TextAfter(b, rows, texts, Choose(w, true, false))
               == if blocks[k].delta || blocks[k + 1].delta then RowTexts(rows[b.index..b.index + b.length], w, texts)
                  else []
  {
    hide Written, RowTexts, KeptLines, Stuck, StartsUnsolved;
    var b := Join(blocks[k], blocks[k + 1]);
    BlockShape(blocks, |rows|, k);
    BlockShape(blocks, |rows|, k + 1);
    assert Follows(blocks, k + 1);
    JoinedReached(blocks[k], blocks[k + 1], w);
    OneLineStays(b.list, rows);
    WrittenOne(NewLine(b.id3l), rows, texts);
  }

  lemma JoinedReached(b: Block, c: Block, w: Selector)
    ensures Reaches(Choose(w, true, false), Join(b, c)) <==> b.delta || c.delta
  {
  }

  /** Nobody typed into the result. */
  ghost predicate NothingModified(blocks: seq<Block>) {
    forall i :: 0 <= i < |blocks| ==> !blocks[i].HasModifiedText()
  }

  /** A sound block without typed text is not stuck. */
  lemma SoundIsNotStuck(b: Block, rows: seq<Diff3Line>, texts: Keys, three: bool)
    requires Sound(b, rows, texts, three) && 0 < b.length && !b.HasModifiedText()
    ensures !Stuck(b)
  {
    if !b.delta {
      assert UnchangedLine(b.list[0], b.index + 0, rows, texts, three);
    }
  }

  lemma OnlyTheJoinedIsStuck(blocks: seq<Block>, rows: seq<Diff3Line>, texts: Keys, three: bool, k: int)
    requires Edited(blocks, rows, texts, three) && NothingModified(blocks) && 0 <= k && k + 1 < |blocks|
    ensures forall i :: 0 <= i < |Joining(blocks, k)| && i != k ==> !Stuck(Joining(blocks, k)[i])
  {
    hide Sound, Stuck, Division;
    forall i | 0 <= i < |Joining(blocks, k)| && i != k
      ensures !Stuck(Joining(blocks, k)[i])
    {
      var j := if i < k then i else i + 1;
      assert Joining(blocks, k)[i] == blocks[j] && Sound(blocks[j], rows, texts, three);
      BlockShape(blocks, |rows|, j);
      SoundIsNotStuck(blocks[j], rows, texts, three);
    }
  }

  /**
    Joins block k with the next one and chooses an input for all unsolved conflicts.  The joined block is
    left unsolved, and says nothing, exactly if neither of the two blocks had a change.  If nobody typed into
    the result, this decides whether any conflict is left.
   */
  method JoinThenSolve(list: MergeBlockList, k: int, rows: seq<Diff3Line>, texts: Keys, isThreeWay: bool, w: Selector,
                       lineFeed: Line)
    returns (out: Line)
    requires FromComparison(rows, texts, isThreeWay) && w in {A, B, C} && 0 <= k && k + 1 < |list.blocks|
    requires Edited(list.blocks, rows, texts, isThreeWay)
    modifies list
    ensures |list.blocks| == |old(list.blocks)| - 1 && AllHaveRows(Joining(old(list.blocks), k), rows)
    ensures StartsUnsolved(list.blocks[k]) <==> !old(list.blocks)[k].delta && !old(list.blocks)[k + 1].delta
    ensures forall i :: 0 <= i < |list.blocks| && i != k ==>
              (StartsUnsolved(list.blocks[i]) <==> Stuck(Joining(old(list.blocks), k)[i]))
    ensures NothingModified(old(list.blocks)) ==>
              (AnyUnsolved(list.blocks) <==> !old(list.blocks)[k].delta && !old(list.blocks)[k + 1].delta)
    ensures out == Joined(AllTextsAfter(Joining(old(list.blocks), k), rows, texts, Choose(w, true, false)), lineFeed)
    ensures var b := Joining(old(list.blocks), k)[k];
            TextAfter(b, rows, texts, Choose(w, true, false))
            == if old(list.blocks)[k].delta || old(list.blocks)[k + 1].delta
               then RowTexts(rows[b.index..b.index + b.length], w, texts) else []
  {
    hide Division, AllSound, InFiles, FineTells, AllInRows, Joined, AllTextsAfter, TextAfter, StartsUnsolved, Stuck,
         HasRows, InRows, NothingModified;
    ghost var before := list.blocks;
    SoundInRows(before, rows, texts, isThreeWay);
    JoinedText(before, k, rows, texts, w);
    JoinedStuck(before[k], before[k + 1]);
    if NothingModified(before) {
      OnlyTheJoinedIsStuck(before, rows, texts, isThreeWay, k);
    }
    list.JoinNext(k, rows, texts, isThreeWay);
    out := ChooseForUnsolved(list, rows, texts, isThreeWay, w, false, lineFeed);
  }

  // ----- two blocks without change

  /** A row in which all inputs have line j. */
  function AgreedRow(j: int): Diff3Line { NEW_ROW.(lineA := j, lineB := j, lineC := j) }

  /** The block that `BuildFromDiff3` makes of the first two rows when all inputs agree in them. */
  function AgreedBlock(): Block {
    Block(0, 0, 2, NoChange, false, false, false, A, [NewLine(0).SetSource(A, false), NewLine(1).SetSource(A, false)])
  }

  /**
    The halves of such a block have no change.  If they are joined again, choosing A for all unsolved
    conflicts leaves the conflict and writes nothing, although A has two lines here.
   */
  lemma TwoUnchangedBlocks(l: Line, m: Line)
    ensures var texts := Keys([l, m], [l, m], [l, m]);
            var rows := [AgreedRow(0), AgreedRow(1)];
            var halves := [FirstHalf(AgreedBlock(), 1), SecondHalf(AgreedBlock(), 1)];
            var b := Joining(halves, 0)[0];
            && FromComparison(rows, texts, true) && Fresh(AgreedBlock(), rows, true)
            && Edited(halves, rows, texts, true)
            && Stuck(b) && HasRows(b, rows) && InRows(b.list, 2)
            && RowTexts(rows, A, texts) == [l, m] && TextAfter(b, rows, texts, Choose(A, true, false)) == []
  {
    hide RowTexts, FromComparison, Fresh, AllSound, FirstHalf, SecondHalf, TextAfter;
    var texts := Keys([l, m], [l, m], [l, m]);
    var rows := [AgreedRow(0), AgreedRow(1)];
    AgreedRows(l, m);
    AgreedHalves(rows, texts);
    assert rows == [AgreedRow(0)] + [AgreedRow(1)];
    RowTextsConcat([AgreedRow(0)], [AgreedRow(1)], A, texts);
    RowTextsOne(AgreedRow(0), A, texts);
    RowTextsOne(AgreedRow(1), A, texts);
    JoinedText([FirstHalf(AgreedBlock(), 1), SecondHalf(AgreedBlock(), 1)], 0, rows, texts, A);
  }

  lemma AgreedRows(l: Line, m: Line)
    ensures var texts := Keys([l, m], [l, m], [l, m]);
            FromComparison([AgreedRow(0), AgreedRow(1)], texts, true)
              && Fresh(AgreedBlock(), [AgreedRow(0), AgreedRow(1)], true)
  {
    hide Fresh;
    AgreedFresh();
  }

  lemma AgreedFresh()
    ensures Fresh(AgreedBlock(), [AgreedRow(0), AgreedRow(1)], true)
  {
    var rows := [AgreedRow(0), AgreedRow(1)];
    forall j | 0 <= j < 2
      ensures AlikeRow(AgreedBlock(), rows, true, j) && AgreedBlock().list[j] == FreshLine(rows, j, true)
    {
      assert Decide(rows[j], true) == Decision(NoChange, A, false, false);
    }
  }

  lemma AgreedHalves(rows: seq<Diff3Line>, texts: Keys)
    requires rows == [AgreedRow(0), AgreedRow(1)] && FromComparison(rows, texts, true)
    requires Fresh(AgreedBlock(), rows, true)
    ensures var halves := [FirstHalf(AgreedBlock(), 1), SecondHalf(AgreedBlock(), 1)];
            && Edited(halves, rows, texts, true) && !halves[0].delta && !halves[1].delta
            && halves[0].index == 0 && halves[1].index == 1 && halves[1].length == 1
  {
    hide Fresh, FineTells, Sound, FirstHalf, SecondHalf;
    var b := AgreedBlock();
    FreshIsSound(b, rows, texts, true);
    assert Follows([b], 0);
    SplitKeeps([b], rows, texts, true, 0, 1);
    HalvesOf(b, 1, 1);
    var halves := [FirstHalf(b, 1), SecondHalf(b, 1)];
    assert [b][..0] + halves + [b][1..] == halves;
  }
}
