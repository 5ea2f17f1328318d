/**
  The list of merge blocks (`MergeBlockList`): building, splitting, joining, choosing and writing.
 */
module MergeBlockLists {
  import opened Lines
  import opened ManualDiffHelp
  import opened Diff3Lines
  import opened MergeRule
  import opened MergeLines
  import opened MergeBlocks
  import opened MergeTexts

  /** What every editing step keeps. */
  ghost predicate Edited(blocks: seq<Block>, rows: seq<Diff3Line>, texts: Keys, three: bool) {
    Division(blocks, |rows|) && AllSound(blocks, rows, texts, three)
  }

  /** The rows come from the comparison of the texts, and each has a line. */
  ghost predicate FromComparison(rows: seq<Diff3Line>, texts: Keys, three: bool) {
    && InFiles(rows, texts)
    && (forall j :: 0 <= j < |rows| ==> FineTells(rows[j], texts))
    && (three ==> forall j :: 0 <= j < |rows| ==> rows[j].Has(A) || rows[j].Has(B) || rows[j].Has(C))
  }

  lemma RowsDecidable(rows: seq<Diff3Line>, texts: Keys)
    requires FromComparison(rows, texts, true)
    ensures forall j :: 0 <= j < |rows| ==> Decidable(rows[j])
  {
    hide FineTells, Decidable, RowInFiles, Decide;
    forall j | 0 <= j < |rows|
      ensures Decidable(rows[j])
    {
      DecideIsThreeWay(rows[j], texts);
    }
  }

  // ----- building

  /**
    A block is as long as possible, takes its details from its first row, and is a white-space conflict
    exactly if all its rows are.
   */
  ghost predicate Grouped(blocks: seq<Block>, rows: seq<Diff3Line>, three: bool) {
    forall i :: 0 <= i < |blocks| ==>
      && InList(blocks[i], rows) && blocks[i].details == Single(rows, blocks[i].id3l, three).details
      && KindChanges(blocks, rows, three, i) && WhiteSpaceExactly(blocks[i], rows, three)
  }

  ghost predicate WhiteSpaceExactly(b: Block, rows: seq<Diff3Line>, three: bool) {
    b.whiteSpaceConflict <==> forall j :: b.HasRow(j) ==> IsWhiteSpaceConflict(rows, j, three)
  }

  /** The inputs conflict in this row, but only in white space. */
  predicate IsWhiteSpaceConflict(rows: seq<Diff3Line>, j: int, three: bool) {
    0 <= j < |rows| && Single(rows, j, three).whiteSpaceConflict
  }

  ghost predicate KindChanges(blocks: seq<Block>, rows: seq<Diff3Line>, three: bool, i: int)
    requires 0 <= i < |blocks| && InList(blocks[i], rows)
  {
    i > 0 ==> InList(blocks[i - 1], rows) && !IsSameKind(Single(rows, blocks[i].id3l, three), blocks[i - 1], rows)
  }

  ghost predicate Built(blocks: seq<Block>, rows: seq<Diff3Line>, three: bool, n: int) {
    0 <= n <= |rows| && Division(blocks, n) && AllFresh(blocks, rows, three) && Grouped(blocks, rows, three)
  }

  lemma BuiltNew(blocks: seq<Block>, rows: seq<Diff3Line>, three: bool, n: int, b: Block)
    requires Built(blocks, rows, three, n) && n < |rows|
    requires var s := Single(rows, n, three);
             b == s.(list := if s.conflict then [NewLine(n)] else [FreshLine(rows, n, three)])
    requires |blocks| > 0 ==>
               InList(blocks[|blocks| - 1], rows) && !IsSameKind(Single(rows, n, three), blocks[|blocks| - 1], rows)
    ensures Built(blocks + [b], rows, three, n + 1)
  {
    hide Single, Fresh, IsSameKind, FreshLine;
    SingleShape(rows, n, three);
    FreshNew(rows, n, three);
    DivisionPush(blocks, n, b);
    var more := blocks + [b];
    forall i | 0 <= i < |more|
      ensures Fresh(more[i], rows, three)
      ensures InList(more[i], rows) && more[i].details == Single(rows, more[i].id3l, three).details
      ensures KindChanges(more, rows, three, i) && WhiteSpaceExactly(more[i], rows, three)
    {
      if i < |blocks| {
        assert Fresh(blocks[i], rows, three) && KindChanges(blocks, rows, three, i);
        assert WhiteSpaceExactly(blocks[i], rows, three);
      } else {
        WhiteSpaceNew(more[i], rows, three);
      }
    }
  }

  lemma WhiteSpaceNew(b: Block, rows: seq<Diff3Line>, three: bool)
    requires 0 <= b.index < |rows| && b.length == 1
    requires b.whiteSpaceConflict == Single(rows, b.index, three).whiteSpaceConflict
    ensures WhiteSpaceExactly(b, rows, three)
  {
    hide Single;
    assert b.HasRow(b.index);
  }

  lemma WhiteSpaceGrow(b: Block, g: Block, rows: seq<Diff3Line>, three: bool)
    requires WhiteSpaceExactly(b, rows, three) && b.index >= 0 && b.index + b.length < |rows|
    requires g.index == b.index && g.length == b.length + 1 > 0
    requires g.whiteSpaceConflict
             == (b.whiteSpaceConflict && Single(rows, b.index + b.length, three).whiteSpaceConflict)
    ensures WhiteSpaceExactly(g, rows, three)
  {
    hide Single;
    var n := b.index + b.length;
    assert g.HasRow(n);
    forall j | b.HasRow(j)
      ensures g.HasRow(j)
    {
    }
  }

  lemma SingleShape(rows: seq<Diff3Line>, n: int, three: bool)
    requires 0 <= n < |rows|
    ensures var s := Single(rows, n, three); s.index == s.id3l == n && s.length == 1
  {
  }

  lemma BuiltGrow(blocks: seq<Block>, rows: seq<Diff3Line>, three: bool, n: int, g: Block)
    requires Built(blocks, rows, three, n) && n < |rows| && |blocks| > 0 && InList(blocks[|blocks| - 1], rows)
    requires IsSameKind(Single(rows, n, three), blocks[|blocks| - 1], rows)
    requires var back, s := blocks[|blocks| - 1], Single(rows, n, three);
             g == back.(length := back.length + 1,
                        whiteSpaceConflict := back.whiteSpaceConflict && s.whiteSpaceConflict,
                        list := if s.conflict then back.list else back.list + [FreshLine(rows, n, three)])
    ensures Built(blocks[|blocks| - 1 := g], rows, three, n + 1)
  {
    hide Single, Fresh, IsSameKind, FreshLine;
    var last := |blocks| - 1;
    var back := blocks[last];
    assert Fresh(back, rows, three) && KindChanges(blocks, rows, three, last);
    FreshGrow(back, rows, three, g);
    DivisionGrow(blocks, n, g);
    var grown := blocks[last := g];
    forall i | 0 <= i < |grown|
      ensures Fresh(grown[i], rows, three)
      ensures InList(grown[i], rows) && grown[i].details == Single(rows, grown[i].id3l, three).details
      ensures KindChanges(grown, rows, three, i) && WhiteSpaceExactly(grown[i], rows, three)
    {
      assert WhiteSpaceExactly(blocks[i], rows, three);
      if i < last {
        assert Fresh(blocks[i], rows, three) && KindChanges(blocks, rows, three, i);
      } else {
        BlockShape(blocks, n, last);
        LastBlock(blocks, n);
        WhiteSpaceGrow(back, g, rows, three);
      }
    }
  }

  lemma BuiltLast(blocks: seq<Block>, rows: seq<Diff3Line>, three: bool, n: int)
    requires Built(blocks, rows, three, n) && |blocks| > 0
    ensures InList(blocks[|blocks| - 1], rows)
    ensures n < |rows| && IsSameKind(Single(rows, n, three), blocks[|blocks| - 1], rows) ==>
              Single(rows, n, three).conflict == blocks[|blocks| - 1].conflict
  {
    hide Decide, WhiteSpaceOnly, FreshList;
    var b := blocks[|blocks| - 1];
    assert Fresh(b, rows, three);
    if n < |rows| {
      DecisionShape(rows[n], three);
      DecisionShape(rows[b.index], three);
      assert AlikeRow(b, rows, three, b.index);
    }
  }

  // ----- splitting

  /** Splitting loses no text and keeps the block sound. */
  lemma SoundSplit(mb: Block, rows: seq<Diff3Line>, texts: Keys, three: bool, idx: int)
    requires Sound(mb, rows, texts, three) && mb.id3l == mb.index >= 0
    requires mb.index < idx < mb.index + mb.length <= |rows|
    ensures Sound(FirstHalf(mb, idx), rows, texts, three) && Sound(SecondHalf(mb, idx), rows, texts, three)
    ensures InRows(mb.list, |rows|) && InRows(FirstHalf(mb, idx).list, |rows|)
    ensures InRows(SecondHalf(mb, idx).list, |rows|)
    ensures Written(mb.list, rows, texts) == Written(FirstHalf(mb, idx).list, rows, texts)
            + Written(SecondHalf(mb, idx).list, rows, texts)
  {
    hide FirstHalf, SecondHalf, Unchanged, Written, SplicePoint;
    var k := SplicePoint(mb.list, idx);
    HalvesOf(mb, idx, k);
    var l, m := mb.list[..k], mb.list[k..];
    assert mb.list == l + m;
    WrittenConcat(l, m, rows, texts);
    if k == |mb.list| {
      NoTexts(rows, A, texts);
      WrittenOne(NewLine(idx), rows, texts);
      assert m == [];
    }
    if !mb.delta {
      UnchangedHalves(mb, rows, texts, three, idx);
    }
  }

  lemma UnchangedHalves(mb: Block, rows: seq<Diff3Line>, texts: Keys, three: bool, idx: int)
    requires Unchanged(mb, rows, texts, three) && mb.id3l == mb.index >= 0
    requires mb.index < idx < mb.index + mb.length <= |rows|
    ensures Unchanged(FirstHalf(mb, idx), rows, texts, three) && Unchanged(SecondHalf(mb, idx), rows, texts, three)
  {
    hide FirstHalf, SecondHalf, UnchangedLines, SplicePoint;
    var k := SplicePoint(mb.list, idx);
    UnchangedAt(mb, rows, texts, three, idx, k);
    HalvesOf(mb, idx, k);
    UnchangedSlices(mb.list, mb.index, rows, texts, three, k);
  }

  lemma UnchangedAt(mb: Block, rows: seq<Diff3Line>, texts: Keys, three: bool, idx: int, k: int)
    requires Unchanged(mb, rows, texts, three) && mb.index < idx < mb.index + mb.length
    requires k == SplicePoint(mb.list, idx)
    ensures k == idx - mb.index
  {
    hide Agreed;
    forall i | 0 <= i < |mb.list|
      ensures mb.list[i].id3l == mb.index + i
    {
      assert UnchangedLine(mb.list[i], mb.index + i, rows, texts, three);
    }
    FirstOne(mb.list, idx, idx - mb.index);
  }

  lemma {:induction false} AllWrittenConcat(p: seq<Block>, q: seq<Block>, rows: seq<Diff3Line>, texts: Keys)
    requires AllInRows(p, |rows|) && AllInRows(q, |rows|)
    ensures AllInRows(p + q, |rows|)
    ensures AllWritten(p + q, rows, texts) == AllWritten(p, rows, texts) + AllWritten(q, rows, texts)
    decreases |q|
  {
    hide Written, InRows;
    if |q| == 0 {
      assert p + q == p;
    } else {
      assert (p + q)[..|p + q| - 1] == p + q[..|q| - 1];
      AllWrittenConcat(p, q[..|q| - 1], rows, texts);
    }
  }

  lemma AllWrittenOne(b: Block, rows: seq<Diff3Line>, texts: Keys)
    requires InRows(b.list, |rows|)
    ensures AllInRows([b], |rows|) && AllWritten([b], rows, texts) == Written(b.list, rows, texts)
  {
    assert [b][..0] == [];
  }

  /** All that splitting keeps: the rows are divided, the blocks stay fresh and sound, and no text changes. */
  ghost predicate Divided(before: seq<Block>, after: seq<Block>, rows: seq<Diff3Line>, texts: Keys, three: bool) {
    && Division(after, |rows|) && (AllFresh(before, rows, three) ==> AllFresh(after, rows, three))
    && (AllSound(before, rows, texts, three) ==>
          AllSound(after, rows, texts, three) && AllInRows(after, |rows|) && AllInRows(before, |rows|)
          && AllWritten(after, rows, texts) == AllWritten(before, rows, texts))
  }

  lemma DividedSelf(blocks: seq<Block>, rows: seq<Diff3Line>, texts: Keys, three: bool)
    requires Division(blocks, |rows|)
    ensures Divided(blocks, blocks, rows, texts, three)
  {
    if AllSound(blocks, rows, texts, three) {
      SoundInRows(blocks, rows, texts, three);
    }
  }

  lemma SplitKeeps(blocks: seq<Block>, rows: seq<Diff3Line>, texts: Keys, three: bool, p: int, idx: int)
    requires Division(blocks, |rows|) && 0 <= p < |blocks| && blocks[p].index < idx < blocks[p].index + blocks[p].length
    ensures Divided(blocks, blocks[..p] + [FirstHalf(blocks[p], idx), SecondHalf(blocks[p], idx)] + blocks[p + 1..],
                    rows, texts, three)
  {
    hide FirstHalf, SecondHalf, Written, Sound, Fresh, InRows, AllWritten;
    var mb := blocks[p];
    var b, c := FirstHalf(mb, idx), SecondHalf(mb, idx);
    var head, tail := blocks[..p], blocks[p + 1..];
    var after := head + [b, c] + tail;
    assert Follows(blocks, p);
    WithinRows(blocks, |rows|, p);
    HalvesShape(mb, idx);
    DivisionSplit(blocks, |rows|, p, b, c);
    if AllFresh(blocks, rows, three) {
      FreshSplit(mb, rows, three, idx);
      forall i | 0 <= i < |after|
        ensures Fresh(after[i], rows, three)
      {
        assert after[i] == if i < p then blocks[i] else if i == p then b else if i == p + 1 then c else blocks[i - 1];
      }
    }
    if AllSound(blocks, rows, texts, three) {
      SoundSplit(mb, rows, texts, three, idx);
      forall i | 0 <= i < |after|
        ensures Sound(after[i], rows, texts, three)
      {
        assert after[i] == if i < p then blocks[i] else if i == p then b else if i == p + 1 then c else blocks[i - 1];
      }
      SoundInRows(blocks, rows, texts, three);
      SoundInRows(after, rows, texts, three);
      SplitTexts(head, mb, b, c, tail, rows, texts);
      assert blocks == head + [mb] + tail;
    }
  }

  lemma HalvesShape(mb: Block, idx: int)
    requires mb.index == mb.id3l && mb.index < idx < mb.index + mb.length
    ensures var b, c := FirstHalf(mb, idx), SecondHalf(mb, idx);
            b.index == b.id3l == mb.index && c.index == c.id3l == idx && b.length == idx - mb.index
              && b.length + c.length == mb.length
  {
  }

  lemma SoundInRows(blocks: seq<Block>, rows: seq<Diff3Line>, texts: Keys, three: bool)
    requires AllSound(blocks, rows, texts, three)
    ensures AllInRows(blocks, |rows|)
  {
    forall i | 0 <= i < |blocks|
      ensures InRows(blocks[i].list, |rows|)
    {
      assert Sound(blocks[i], rows, texts, three);
    }
  }

  lemma SplitTexts(head: seq<Block>, mb: Block, b: Block, c: Block, tail: seq<Block>, rows: seq<Diff3Line>, texts: Keys)
    requires AllInRows(head + [mb] + tail, |rows|) && AllInRows(head + [b, c] + tail, |rows|)
    requires InRows(mb.list, |rows|) && InRows(b.list, |rows|) && InRows(c.list, |rows|)
    requires Written(mb.list, rows, texts) == Written(b.list, rows, texts) + Written(c.list, rows, texts)
    ensures AllWritten(head + [mb] + tail, rows, texts) == AllWritten(head + [b, c] + tail, rows, texts)
  {
    hide Written, InRows, AllWritten;
    var whole := head + [mb] + tail;
    assert forall i :: 0 <= i < |head| ==> head[i] == whole[i];
    assert forall i :: 0 <= i < |tail| ==> tail[i] == whole[|head| + 1 + i];
    AllWrittenOne(mb, rows, texts);
    AllWrittenOne(b, rows, texts);
    AllWrittenOne(c, rows, texts);
    AllWrittenConcat([b], [c], rows, texts);
    AllWrittenConcat(head, [mb], rows, texts);
    AllWrittenConcat(head, [b] + [c], rows, texts);
    assert [b] + [c] == [b, c];
    AllWrittenConcat(head + [mb], tail, rows, texts);
    AllWrittenConcat(head + [b, c], tail, rows, texts);
  }

  // ----- joining

  /** The list after joining block k with the next one. */
  function Joining(blocks: seq<Block>, k: int): seq<Block>
    requires 0 <= k && k + 1 < |blocks|
  {
    blocks[..k] + [Join(blocks[k], blocks[k + 1])] + blocks[k + 2..]
  }

  // ----- choosing

  /** The block starts with a conflict; as long as one does, the result cannot be saved. */
  predicate StartsUnsolved(b: Block) { |b.list| == 0 || b.list[0].IsConflict() }

  /** How many blocks do. */
  ghost function Unsolved(blocks: seq<Block>): nat {
    if |blocks| == 0 then 0
    else Unsolved(blocks[..|blocks| - 1]) + if StartsUnsolved(blocks[|blocks| - 1]) then 1 else 0
  }

  ghost predicate AnyUnsolved(blocks: seq<Block>) {
    exists i :: 0 <= i < |blocks| && StartsUnsolved(blocks[i])
  }

  lemma {:induction false} UnsolvedMeansAny(blocks: seq<Block>)
    ensures Unsolved(blocks) > 0 <==> AnyUnsolved(blocks)
    decreases |blocks|
  {
    hide StartsUnsolved;
    if |blocks| > 0 {
      var front, last := blocks[..|blocks| - 1], blocks[|blocks| - 1];
      UnsolvedMeansAny(front);
      if AnyUnsolved(front) {
        var i :| 0 <= i < |front| && StartsUnsolved(front[i]);
        assert StartsUnsolved(blocks[i]);
      }
      if AnyUnsolved(blocks) {
        var i :| 0 <= i < |blocks| && StartsUnsolved(blocks[i]);
        assert i < |front| ==> StartsUnsolved(front[i]);
      }
    }
  }

  /** Whether a choice for the whole list reaches this block. */
  predicate Touched(b: Block, bConflictsOnly: bool, bWhiteSpaceOnly: bool) {
    && b.delta && !(b.HasModifiedText() && (bConflictsOnly || bWhiteSpaceOnly))
    && (!bConflictsOnly || StartsUnsolved(b))
    && (!bWhiteSpaceOnly || b.whiteSpaceConflict)
  }

  function Updated(b: Block, rows: seq<Diff3Line>, sel: Selector, bConflictsOnly: bool, bWhiteSpaceOnly: bool): Block
    requires 0 <= b.index && b.index + b.length <= |rows|
  {
    if !Touched(b, bConflictsOnly, bWhiteSpaceOnly) then b
    else if sel == Invalid then b.(list := [NewLine(b.id3l)], conflict := true)
    else b.(list := Chosen(b, rows, sel))
  }

  /** Where an input takes part, choosing it everywhere makes each block say what this input has. */
  ghost predicate AllChosen(blocks: seq<Block>, rows: seq<Diff3Line>, texts: Keys, w: Selector) {
    forall i :: 0 <= i < |blocks| ==> ChosenBlock(blocks[i], rows, texts, w)
  }

  ghost predicate ChosenBlock(b: Block, rows: seq<Diff3Line>, texts: Keys, w: Selector) {
    Says(b, rows, texts, w) && NothingVisibleDropped(b.list, rows, |b.list|)
  }

  lemma UpdatedKeeps(b: Block, rows: seq<Diff3Line>, texts: Keys, three: bool, sel: Selector, co: bool, wo: bool)
    requires Sound(b, rows, texts, three) && InFiles(rows, texts) && 0 <= b.index == b.id3l && 0 < b.length
    requires b.index + b.length <= |rows|
    ensures Sound(Updated(b, rows, sel, co, wo), rows, texts, three)
    ensures TakesPart(sel, three) && !co && !wo ==> ChosenBlock(Updated(b, rows, sel, co, wo), rows, texts, sel)
  {
    hide Written, RowTexts, ChosenLines, Unchanged, Says, NothingVisibleDropped;
    if TakesPart(sel, three) && !co && !wo {
      if b.delta {
        ChosenSays(b, rows, texts, sel);
      } else {
        UnchangedSays(b, rows, texts, three, sel);
      }
    }
  }

  // ----- removing lines without source

  ghost predicate NothingVisibleDroppedAnywhere(blocks: seq<Block>, rows: seq<Diff3Line>) {
    forall i :: 0 <= i < |blocks| ==>
      InRows(blocks[i].list, |rows|) && NothingVisibleDropped(blocks[i].list, rows, |blocks[i].list|)
  }

  /** The same blocks with other lists that read the same. */
  lemma {:induction false} ReadsSameAfter(blocks: seq<Block>, after: seq<Block>, rows: seq<Diff3Line>, texts: Keys)
    requires |after| == |blocks| && AllInRows(blocks, |rows|) && AllInRows(after, |rows|)
    requires forall i :: 0 <= i < |blocks| ==> ReadsSame(blocks[i], after[i], rows, texts)
    ensures AllWritten(after, rows, texts) == AllWritten(blocks, rows, texts)
    decreases |blocks|
  {
    hide Written, InRows;
    if |blocks| > 0 {
      var last := |blocks| - 1;
      assert ReadsSame(blocks[last], after[last], rows, texts);
      ReadsSameAfter(blocks[..last], after[..last], rows, texts);
    }
  }

  ghost predicate ReadsSame(b: Block, c: Block, rows: seq<Diff3Line>, texts: Keys) {
    InRows(b.list, |rows|) && InRows(c.list, |rows|) && Written(b.list, rows, texts) == Written(c.list, rows, texts)
  }

  /** The blocks of a merge; every operation changes the list in place. */
  class MergeBlockList {
    var blocks: seq<Block>

    constructor ()
      ensures blocks == []
    {
      blocks := [];
    }

    /**
      Groups the rows into blocks of the same kind.  Each row without conflict has a line; a conflict has
      one line, however many rows it has.
     */
    method BuildFromDiff3(rows: seq<Diff3Line>, isThreeway: bool)
      requires blocks == [] && (isThreeway ==> forall j :: 0 <= j < |rows| ==> Decidable(rows[j]))
      modifies this
      ensures Division(blocks, |rows|) && AllFresh(blocks, rows, isThreeway) && Grouped(blocks, rows, isThreeway)
    {
      hide Decide, Built, WhiteSpaceOnly, IsSameKind, Decidable;
      var lineIdx := 0;
      NothingBuilt(rows, isThreeway);
      while lineIdx < |rows|
        invariant 0 <= lineIdx <= |rows| && Built(blocks, rows, isThreeway, lineIdx)
      {
        ghost var before := blocks;
        var d := MergeOneLine(rows[lineIdx], !isThreeway);
        var mb := Block(lineIdx, lineIdx, 1, d.details, d.conflict,
                        d.conflict && WhiteSpaceOnly(rows[lineIdx], isThreeway), d.src != A, d.src, []);
        var last := |blocks| - 1;
        var bSame := false;
        var lBackConflict := false;
        if last >= 0 {
          BuiltLast(blocks, rows, isThreeway, lineIdx);
          bSame := IsSameKind(mb, blocks[last], rows);
          lBackConflict := blocks[last].conflict;
        }
        if bSame {
          var lBack := blocks[last];
          lBack := lBack.(length := lBack.length + 1);
          if lBack.whiteSpaceConflict && !mb.whiteSpaceConflict {
            lBack := lBack.(whiteSpaceConflict := false);
          }
          blocks := blocks[last := lBack];
        } else {
          blocks := blocks + [mb];
          last := |blocks| - 1;
        }
        if !mb.conflict {
          var mel := NewLine(lineIdx).SetSource(mb.src, d.lineRemoved);
          blocks := blocks[last := blocks[last].(list := blocks[last].list + [mel])];
        } else if last < 0 || !lBackConflict || !bSame {
          var mel := NewLine(lineIdx).SetConflict();
          blocks := blocks[last := blocks[last].(list := blocks[last].list + [mel])];
        }
        ghost var b := blocks[last];
        if bSame {
          assert blocks == before[last := b];
          BuiltGrow(before, rows, isThreeway, lineIdx, b);
        } else {
          assert blocks == before + [b];
          BuiltNew(before, rows, isThreeway, lineIdx, b);
        }
        lineIdx := lineIdx + 1;
      }
      BuiltDone(blocks, rows, isThreeway);
    }

    /**
      Splits the list so that a block starts at the given row, and returns its position.  A row behind
      the last one gets a block that was never filled in, so that the blocks no longer divide the rows.
     */
    method SplitAtDiff3LineIdx(d3lLineIdx: int, ghost rows: seq<Diff3Line>, ghost texts: Keys, ghost three: bool)
      returns (k: int)
      requires |blocks| > 0 && Division(blocks, |rows|) && 0 <= d3lLineIdx
      modifies this
      ensures 0 <= k < |blocks|
      ensures d3lLineIdx < |rows| ==> blocks[k].index == d3lLineIdx && Divided(old(blocks), blocks, rows, texts, three)
      ensures d3lLineIdx >= |rows| ==> blocks == old(blocks) + [DEFAULT_BLOCK] && forall m :: !Division(blocks, m)
    {
      hide FirstHalf, SecondHalf, Division, AllSound, Divided;
      ghost var before := blocks;
      var i := 0;
      while i < |blocks|
        invariant 0 <= i <= |blocks| && blocks == before
        invariant i > 0 ==> blocks[i - 1].index < d3lLineIdx
      {
        FirstBlock(blocks, |rows|, i);
        if blocks[i].index == d3lLineIdx {
          DividedSelf(blocks, rows, texts, three);
          StartsBefore(blocks, |rows|, i);
          return i;
        } else if blocks[i].index > d3lLineIdx {
          i := i - 1;
          BetweenBlocks(blocks, |rows|, i, d3lLineIdx);
          SplitKeeps(blocks, rows, texts, three, i, d3lLineIdx);
          var mb, newMB := Split(blocks[i], d3lLineIdx);
          TwoForOne(before, i, mb, newMB);
          blocks := blocks[i := mb];
          i := i + 1;
          blocks := blocks[..i] + [newMB] + blocks[i..];
          SecondIndex(before[i - 1], d3lLineIdx);
          return i;
        }
        i := i + 1;
      }
      i := i - 1;
      LastBlock(blocks, |rows|);
      var mb, newMB := Split(blocks[i], d3lLineIdx);
      if d3lLineIdx < |rows| {
        SplitKeeps(blocks, rows, texts, three, i, d3lLineIdx);
        SecondIndex(blocks[i], d3lLineIdx);
      } else {
        HalvesOf(blocks[i], d3lLineIdx, 0);
      }
      TwoForOne(before, i, mb, newMB);
      blocks := blocks[i := mb];
      i := i + 1;
      blocks := blocks[..i] + [newMB] + blocks[i..];
      if d3lLineIdx >= |rows| {
        NotFilledIn(before);
      }
      return i;
    }

    /**
      Joins a block with the next one.  The blocks still divide the rows.  They stay sound exactly if one
      of the two has a change: otherwise the line that stands for a conflict is out of reach for a choice.
     */
    method JoinNext(k: int, ghost rows: seq<Diff3Line>, ghost texts: Keys, ghost three: bool)
      requires 0 <= k && k + 1 < |blocks| && Division(blocks, |rows|)
      modifies this
      ensures Division(blocks, |rows|) && |blocks| == |old(blocks)| - 1
      ensures blocks == Joining(old(blocks), k)
      ensures AllInRows(old(blocks), |rows|) ==> AllInRows(blocks, |rows|)
      ensures Edited(old(blocks), rows, texts, three) ==>
                (Edited(blocks, rows, texts, three) <==> old(blocks)[k].delta || old(blocks)[k + 1].delta)
    {
      hide Division;
      ghost var before := blocks;
      JoiningKeeps(blocks, rows, texts, three, k);
      blocks := blocks[k := Join(blocks[k], blocks[k + 1])];
      blocks := blocks[..k + 1] + blocks[k + 2..];
      assert blocks == Joining(before, k);
    }

    /**
      Makes a choice for all blocks that it reaches.  Choosing an input for everything turns each block
      into the lines that this input has there.
     */
    method UpdateDefaults(defaultSelector: Selector, bConflictsOnly: bool, bWhiteSpaceOnly: bool, rows: seq<Diff3Line>,
                          ghost texts: Keys, ghost three: bool)
      requires Division(blocks, |rows|) && InFiles(rows, texts)
      modifies this
      ensures |blocks| == |old(blocks)| && Division(blocks, |rows|)
      ensures forall i :: 0 <= i < |blocks| ==>
                            0 <= old(blocks)[i].index && old(blocks)[i].index + old(blocks)[i].length <= |rows|
                            && blocks[i] == Updated(old(blocks)[i], rows, defaultSelector, bConflictsOnly,
                                                    bWhiteSpaceOnly)
      ensures Edited(old(blocks), rows, texts, three) ==> Edited(blocks, rows, texts, three)
      ensures Edited(old(blocks), rows, texts, three) && TakesPart(defaultSelector, three) && !bConflictsOnly
              && !bWhiteSpaceOnly ==>
                AllChosen(blocks, rows, texts, defaultSelector)
    {
      hide Division, Touched, InFiles, Sound, ChosenBlock;
      ghost var before := blocks;
      var i := 0;
      while i < |blocks|
        invariant 0 <= i <= |blocks| == |before|
        invariant forall j :: 0 <= j < i ==>
                                0 <= before[j].index && before[j].index + before[j].length <= |rows|
                                && blocks[j] == Updated(before[j], rows, defaultSelector, bConflictsOnly,
                                                        bWhiteSpaceOnly)
        invariant forall j :: i <= j < |blocks| ==> blocks[j] == before[j]
      {
        BlockShape(before, |rows|, i);
        var mb := blocks[i];
        if Touched(mb, bConflictsOnly, bWhiteSpaceOnly) {
          if defaultSelector == Invalid {
            var mel := NewLine(mb.id3l).SetConflict();
            mb := mb.(list := [mel], conflict := true);
          } else {
            var list := ChooseLines(mb, rows, defaultSelector);
            mb := mb.(list := list);
          }
          blocks := blocks[i := mb];
        }
        i := i + 1;
      }
      UpdatedAll(before, blocks, rows, texts, three, defaultSelector, bConflictsOnly, bWhiteSpaceOnly);
    }

    /** The lines of one block for the chosen input. */
    method ChooseLines(mb: Block, rows: seq<Diff3Line>, defaultSelector: Selector) returns (list: seq<EditLine>)
      requires 0 <= mb.index == mb.id3l && 0 < mb.length && mb.index + mb.length <= |rows| && defaultSelector != Invalid
      ensures list == Chosen(mb, rows, defaultSelector)
    {
      list := [];
      var d3llit, j := mb.id3l, 0;
      while j < mb.length
        invariant 0 <= j <= mb.length && d3llit == mb.index + j
        invariant list == ChosenLines(rows, mb.index, j, defaultSelector)
      {
        var mel := NewLine(d3llit).SetSource(defaultSelector, false);
        if rows[d3llit].Has(defaultSelector) {
          list := list + [mel];
        }
        d3llit := d3llit + 1;
        j := j + 1;
      }
      if |list| == 0 {
        list := [NewLine(mb.id3l).SetRemoved(defaultSelector)];
      }
    }

    /** Removes the lines without source from all blocks. */
    method RemoveEmptySources(rows: seq<Diff3Line>, ghost texts: Keys)
      requires AllInRows(blocks, |rows|)
      modifies this
      ensures |blocks| == |old(blocks)| && AllInRows(blocks, |rows|)
      ensures forall i :: 0 <= i < |blocks| ==>
                blocks[i] == old(blocks)[i].(list := KeptLines(old(blocks)[i].list, rows, |old(blocks)[i].list|))
      ensures NothingVisibleDroppedAnywhere(old(blocks), rows) ==>
                AllWritten(blocks, rows, texts) == AllWritten(old(blocks), rows, texts)
    {
      hide KeptLines, InRows, NothingVisibleDropped, AllWritten;
      ghost var before := blocks;
      var i := 0;
      while i < |blocks|
        invariant 0 <= i <= |blocks| == |before|
        invariant forall j :: 0 <= j < i ==>
                    blocks[j] == before[j].(list := KeptLines(before[j].list, rows, |before[j].list|))
        invariant forall j :: i <= j < |blocks| ==> blocks[j] == before[j]
      {
        var kept := RemoveEmptySource(blocks[i].list, rows);
        blocks := blocks[i := blocks[i].(list := kept)];
        i := i + 1;
      }
      KeptAll(before, blocks, rows, texts);
    }

    /** The number of blocks that start with a conflict. */
    method NumberOfUnsolvedConflicts() returns (n: nat)
      requires forall i :: 0 <= i < |blocks| ==> |blocks[i].list| > 0
      ensures n == Unsolved(blocks)
    {
      n := 0;
      var i := 0;
      while i < |blocks|
        invariant 0 <= i <= |blocks| && n == Unsolved(blocks[..i])
      {
        assert blocks[..i + 1][..i] == blocks[..i];
        if blocks[i].list[0].IsConflict() {
          n := n + 1;
        }
        i := i + 1;
      }
      assert blocks[..|blocks|] == blocks;
    }

    /** The output: the lines of all blocks with line feeds between them. */
    method Write(rows: seq<Diff3Line>, texts: Keys, lineFeed: Line) returns (out: Line)
      requires AllInRows(blocks, |rows|)
      ensures out == Joined(AllWritten(blocks, rows, texts), lineFeed)
    {
      hide InRows, Joined, Written, AllWritten;
      out := [];
      var isFirstLine := true;
      ghost var lines: seq<Line> := [];
      NoLinesYet(blocks, rows, texts, lineFeed);
      var i := 0;
      while i < |blocks|
        invariant 0 <= i <= |blocks| && AllInRows(blocks[..i], |rows|) && lines == AllWritten(blocks[..i], rows, texts)
        invariant State(out, isFirstLine, lines, lineFeed)
      {
        out, isFirstLine := WriteLines(blocks[i].list, rows, texts, lineFeed, out, isFirstLine, lines);
        lines := lines + Written(blocks[i].list, rows, texts);
        assert blocks[..i + 1] == blocks[..i] + [blocks[i]];
        AllWrittenOne(blocks[i], rows, texts);
        AllWrittenConcat(blocks[..i], [blocks[i]], rows, texts);
        i := i + 1;
      }
      assert blocks[..|blocks|] == blocks;
    }
  }

  // ----- lemmas for the steps above

  lemma NothingBuilt(rows: seq<Diff3Line>, three: bool)
    ensures Built([], rows, three, 0)
  {
  }

  lemma BuiltDone(blocks: seq<Block>, rows: seq<Diff3Line>, three: bool)
    requires Built(blocks, rows, three, |rows|)
    ensures Division(blocks, |rows|) && AllFresh(blocks, rows, three) && Grouped(blocks, rows, three)
  {
  }

  lemma FirstBlock(blocks: seq<Block>, n: int, i: int)
    requires Division(blocks, n) && 0 <= i < |blocks|
    ensures i == 0 ==> blocks[i].index == 0
  {
    assert Follows(blocks, i);
  }

  lemma StartsBefore(blocks: seq<Block>, n: int, i: int)
    requires Division(blocks, n) && 0 <= i < |blocks|
    ensures blocks[i].index < n
  {
    WithinRows(blocks, n, i);
    assert Follows(blocks, i);
  }

  lemma BetweenBlocks(blocks: seq<Block>, n: int, i: int, idx: int)
    requires Division(blocks, n) && 0 <= i && i + 1 < |blocks| && blocks[i].index < idx < blocks[i + 1].index
    ensures blocks[i].index < idx < blocks[i].index + blocks[i].length && idx < n
  {
    assert Follows(blocks, i + 1);
    StartsBefore(blocks, n, i + 1);
  }

  lemma LastBlock(blocks: seq<Block>, n: int)
    requires Division(blocks, n) && |blocks| > 0
    ensures blocks[|blocks| - 1].index + blocks[|blocks| - 1].length == n
    ensures blocks[|blocks| - 1].index == blocks[|blocks| - 1].id3l
  {
    assert Follows(blocks, |blocks| - 1);
  }

  /** The second half goes behind the first one, which replaces the block. */
  lemma TwoForOne(blocks: seq<Block>, i: int, b: Block, c: Block)
    requires 0 <= i < |blocks|
    ensures var replaced := blocks[i := b];
            var after := replaced[..i + 1] + [c] + replaced[i + 1..];
            after == blocks[..i] + [b, c] + blocks[i + 1..] && after[i + 1] == c
              && (i == |blocks| - 1 ==> after == replaced + [c])
  {
  }

  lemma SecondIndex(mb: Block, idx: int)
    requires mb.index < idx < mb.index + mb.length
    ensures SecondHalf(mb, idx).index == idx
  {
  }

  lemma NotFilledIn(blocks: seq<Block>)
    ensures forall m :: !Division(blocks + [DEFAULT_BLOCK], m)
  {
    assert !Follows(blocks + [DEFAULT_BLOCK], |blocks|);
  }

  lemma BlockShape(blocks: seq<Block>, n: int, i: int)
    requires Division(blocks, n) && 0 <= i < |blocks|
    ensures 0 <= blocks[i].index == blocks[i].id3l && 0 < blocks[i].length && blocks[i].index + blocks[i].length <= n
  {
    WithinRows(blocks, n, i);
    assert Follows(blocks, i);
  }

  lemma UpdatedAll(before: seq<Block>, after: seq<Block>, rows: seq<Diff3Line>, texts: Keys, three: bool, sel: Selector,
                   co: bool, wo: bool)
    requires Division(before, |rows|) && InFiles(rows, texts) && |after| == |before|
    requires forall j :: 0 <= j < |before| ==>
                           0 <= before[j].index && before[j].index + before[j].length <= |rows|
                             && after[j] == Updated(before[j], rows, sel, co, wo)
    ensures Division(after, |rows|)
    ensures AllSound(before, rows, texts, three) ==> AllSound(after, rows, texts, three)
    ensures AllSound(before, rows, texts, three) && TakesPart(sel, three) && !co && !wo ==>
              AllChosen(after, rows, texts, sel)
  {
    hide Touched, InFiles, Sound, ChosenBlock;
    forall i | 0 <= i < |after|
      ensures Follows(after, i)
    {
      assert Follows(before, i);
    }
    if AllSound(before, rows, texts, three) {
      forall i | 0 <= i < |after|
        ensures Sound(after[i], rows, texts, three)
        ensures TakesPart(sel, three) && !co && !wo ==> ChosenBlock(after[i], rows, texts, sel)
      {
        BlockShape(before, |rows|, i);
        UpdatedKeeps(before[i], rows, texts, three, sel, co, wo);
      }
    }
  }

  lemma JoiningKeeps(blocks: seq<Block>, rows: seq<Diff3Line>, texts: Keys, three: bool, k: int)
    requires Division(blocks, |rows|) && 0 <= k && k + 1 < |blocks|
    ensures var after := Joining(blocks, k);
            && Division(after, |rows|) && (AllInRows(blocks, |rows|) ==> AllInRows(after, |rows|))
            && (AllSound(blocks, rows, texts, three) ==>
                (AllSound(after, rows, texts, three) <==> blocks[k].delta || blocks[k + 1].delta))
  {
    hide Unchanged;
    var b := Join(blocks[k], blocks[k + 1]);
    var after := Joining(blocks, k);
    assert Follows(blocks, k) && Follows(blocks, k + 1);
    WithinRows(blocks, |rows|, k);
    DivisionJoin(blocks, |rows|, k, b);
    if AllSound(blocks, rows, texts, three) {
      assert after[k] == b;
      if b.delta {
        forall i | 0 <= i < |after|
          ensures Sound(after[i], rows, texts, three)
        {
          assert after[i] == if i < k then blocks[i] else if i == k then b else blocks[i + 1];
        }
      } else {
        TooFewLines(b, rows, texts, three);
        assert !Sound(after[k], rows, texts, three);
      }
    }
  }

  lemma TooFewLines(b: Block, rows: seq<Diff3Line>, texts: Keys, three: bool)
    requires |b.list| == 1 && b.length > 1
    ensures !Unchanged(b, rows, texts, three)
  {
  }

  lemma KeptAll(before: seq<Block>, after: seq<Block>, rows: seq<Diff3Line>, texts: Keys)
    requires AllInRows(before, |rows|) && |after| == |before|
    requires forall j :: 0 <= j < |before| ==>
               after[j] == before[j].(list := KeptLines(before[j].list, rows, |before[j].list|))
    ensures AllInRows(after, |rows|)
    ensures NothingVisibleDroppedAnywhere(before, rows) ==>
              AllWritten(after, rows, texts) == AllWritten(before, rows, texts)
  {
    hide KeptLines, InRows, NothingVisibleDropped, AllWritten, Written;
    forall i | 0 <= i < |after|
      ensures InRows(after[i].list, |rows|)
      ensures NothingVisibleDropped(before[i].list, rows, |before[i].list|) ==>
                ReadsSame(before[i], after[i], rows, texts)
    {
      var list := before[i].list;
      assert list[..|list|] == list;
      KeptInRows(list, rows, |list|);
      DroppingIsInvisible(list, rows, texts, |list|);
    }
    if NothingVisibleDroppedAnywhere(before, rows) {
      ReadsSameAfter(before, after, rows, texts);
    }
  }

  lemma NoLinesYet(blocks: seq<Block>, rows: seq<Diff3Line>, texts: Keys, lineFeed: Line)
    ensures AllWritten(blocks[..0], rows, texts) == [] && State([], true, [], lineFeed)
  {
  }

  /** If every block says what an input has, the whole list says it, with or without lines that have no source. */
  lemma ChosenTextIs(blocks: seq<Block>, rows: seq<Diff3Line>, texts: Keys, w: Selector)
    requires Division(blocks, |rows|) && AllChosen(blocks, rows, texts, w)
    ensures AllInRows(blocks, |rows|) && NothingVisibleDroppedAnywhere(blocks, rows)
    ensures AllWritten(blocks, rows, texts) == RowTexts(rows, w, texts)
  {
    hide Says, NothingVisibleDropped, Division, InRows, AllWritten, RowTexts;
    forall i | 0 <= i < |blocks|
      ensures Says(blocks[i], rows, texts, w) && InRows(blocks[i].list, |rows|)
      ensures NothingVisibleDropped(blocks[i].list, rows, |blocks[i].list|)
    {
      assert ChosenBlock(blocks[i], rows, texts, w);
      SaysInRows(blocks[i], rows, texts, w);
    }
    AllSay(blocks, |rows|, rows, texts, w);
    assert rows[..|rows|] == rows;
  }

  lemma SaysInRows(b: Block, rows: seq<Diff3Line>, texts: Keys, w: Selector)
    requires Says(b, rows, texts, w)
    ensures InRows(b.list, |rows|)
  {
  }
}
