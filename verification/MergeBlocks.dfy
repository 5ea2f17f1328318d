/**
  Merge blocks: neighbouring rows with the same kind of decision (`MergeBlock`), and what grouping,
  splitting and joining do to them.
 */
module MergeBlocks {
  import opened Lines
  import opened ManualDiffHelp
  import opened Diff3Lines
  import opened MergeRule
  import opened MergeLines

  /** A block of `length` rows from row `index` on; `id3l` is its first row. */
  datatype Block = Block(id3l: int, index: int, length: int, details: Details, conflict: bool, whiteSpaceConflict: bool,
                         delta: bool, src: Selector, list: seq<EditLine>) {
    predicate HasModifiedText() { exists i :: 0 <= i < |list| && list[i].changed }

    predicate HasRow(j: int) { index <= j < index + length }
  }

  /** A block that was never filled in. */
  const DEFAULT_BLOCK := Block(-1, -1, 0, Default, false, false, false, Selector.None, [])

  /** The inputs differ in white space only. */
  predicate WhiteSpaceOnly(r: Diff3Line, three: bool) {
    if three then (r.bAEqB && r.bAEqC) || (r.bWhiteLineA && r.bWhiteLineB && r.bWhiteLineC)
    else r.bAEqB || (r.bWhiteLineA && r.bWhiteLineB)
  }

  predicate InList(b: Block, rows: seq<Diff3Line>) { 0 <= b.id3l < |rows| }

  /** `MergeBlock::isSameKind`. */
  predicate IsSameKind(mb: Block, mb2: Block, rows: seq<Diff3Line>)
    requires InList(mb, rows) && InList(mb2, rows)
  {
    if mb.conflict && mb2.conflict then
      rows[mb.id3l].bAEqC == rows[mb2.id3l].bAEqC && rows[mb.id3l].bAEqB == rows[mb2.id3l].bAEqB
    else
      (!mb.conflict && !mb2.conflict && mb.delta && mb2.delta && mb.src == mb2.src
       && (mb.details == mb2.details || (mb.details != BCAddedAndEqual && mb2.details != BCAddedAndEqual)))
      || (!mb.delta && !mb2.delta)
  }

  // ----- the division of the rows

  function End(blocks: seq<Block>): int {
    if |blocks| == 0 then 0 else blocks[|blocks| - 1].index + blocks[|blocks| - 1].length
  }

  /** The block is not empty and starts where the one before it ends. */
  predicate Follows(blocks: seq<Block>, i: int)
    requires 0 <= i < |blocks|
  {
    && blocks[i].length > 0 && blocks[i].id3l == blocks[i].index
    && blocks[i].index == if i == 0 then 0 else blocks[i - 1].index + blocks[i - 1].length
  }

  /** The blocks divide the rows 0 to n - 1 among them, in order and without gaps. */
  ghost predicate Division(blocks: seq<Block>, n: int) {
    End(blocks) == n && forall i :: 0 <= i < |blocks| ==> Follows(blocks, i)
  }

  ghost function Lengths(blocks: seq<Block>): int {
    if |blocks| == 0 then 0 else Lengths(blocks[..|blocks| - 1]) + blocks[|blocks| - 1].length
  }

  lemma DivisionPrefix(blocks: seq<Block>, n: int, k: int)
    requires Division(blocks, n) && 0 <= k <= |blocks|
    ensures Division(blocks[..k], End(blocks[..k]))
    ensures k < |blocks| ==> End(blocks[..k]) == blocks[k].index
  {
    forall i | 0 <= i < k
      ensures Follows(blocks[..k], i)
    {
      assert Follows(blocks, i);
    }
    if k < |blocks| {
      assert Follows(blocks, k);
    }
  }

  /** The lengths add up to the number of rows. */
  lemma {:induction false} DivisionSums(blocks: seq<Block>, n: int)
    requires Division(blocks, n)
    ensures Lengths(blocks) == n
    decreases |blocks|
  {
    if |blocks| > 0 {
      DivisionPrefix(blocks, n, |blocks| - 1);
      DivisionSums(blocks[..|blocks| - 1], blocks[|blocks| - 1].index);
    }
  }

  lemma {:induction false} WithinRows(blocks: seq<Block>, n: int, i: int)
    requires Division(blocks, n) && 0 <= i < |blocks|
    ensures 0 <= blocks[i].index && blocks[i].index + blocks[i].length <= n && InListUpTo(blocks[i], n)
    decreases |blocks|
  {
    assert Follows(blocks, i);
    if i < |blocks| - 1 {
      DivisionPrefix(blocks, n, |blocks| - 1);
      WithinRows(blocks[..|blocks| - 1], blocks[|blocks| - 1].index, i);
      assert Follows(blocks, |blocks| - 1);
    } else {
      DivisionSums(blocks, n);
      DivisionPrefix(blocks, n, i);
      DivisionSums(blocks[..i], blocks[i].index);
      LengthsNotNegative(blocks[..i], blocks[i].index);
    }
  }

  predicate InListUpTo(b: Block, n: int) { 0 <= b.id3l < n }

  lemma {:induction false} LengthsNotNegative(blocks: seq<Block>, n: int)
    requires Division(blocks, n)
    ensures 0 <= n
    decreases |blocks|
  {
    if |blocks| > 0 {
      DivisionPrefix(blocks, n, |blocks| - 1);
      LengthsNotNegative(blocks[..|blocks| - 1], blocks[|blocks| - 1].index);
      assert Follows(blocks, |blocks| - 1);
    }
  }

  /** One block more. */
  lemma DivisionPush(blocks: seq<Block>, n: int, b: Block)
    requires Division(blocks, n) && b.index == b.id3l == n && b.length > 0
    ensures Division(blocks + [b], n + b.length)
  {
    var more := blocks + [b];
    forall i | 0 <= i < |more|
      ensures Follows(more, i)
    {
      if i < |blocks| {
        assert Follows(blocks, i);
      }
    }
  }

  /** The last block grows. */
  lemma DivisionGrow(blocks: seq<Block>, n: int, b: Block)
    requires Division(blocks, n) && |blocks| > 0
    requires var back := blocks[|blocks| - 1];
             b.index == back.index && b.id3l == back.id3l && b.length == back.length + 1
    ensures Division(blocks[|blocks| - 1 := b], n + 1)
  {
    var grown := blocks[|blocks| - 1 := b];
    forall i | 0 <= i < |grown|
      ensures Follows(grown, i)
    {
      assert Follows(blocks, i);
    }
  }

  /** One block gives way to two that share its rows. */
  lemma DivisionSplit(blocks: seq<Block>, n: int, p: int, b: Block, c: Block)
    requires Division(blocks, n) && 0 <= p < |blocks|
    requires b.index == b.id3l == blocks[p].index && 0 < b.length
    requires c.index == c.id3l == b.index + b.length && 0 < c.length && b.length + c.length == blocks[p].length
    ensures Division(blocks[..p] + [b, c] + blocks[p + 1..], n)
  {
    var after := blocks[..p] + [b, c] + blocks[p + 1..];
    forall i | 0 <= i < |after|
      ensures Follows(after, i)
    {
      assert after[i] == if i < p then blocks[i] else if i == p then b else if i == p + 1 then c else blocks[i - 1];
      assert Follows(blocks, if i <= p then i else i - 1);
    }
    assert End(after) == n;
  }

  /** Two neighbours give way to one that has the rows of both. */
  lemma DivisionJoin(blocks: seq<Block>, n: int, p: int, b: Block)
    requires Division(blocks, n) && 0 <= p && p + 1 < |blocks|
    requires b.index == b.id3l == blocks[p].index && b.length == blocks[p].length + blocks[p + 1].length
    ensures Division(blocks[..p] + [b] + blocks[p + 2..], n)
  {
    var after := blocks[..p] + [b] + blocks[p + 2..];
    forall i | 0 <= i < |after|
      ensures Follows(after, i)
    {
      assert after[i] == if i < p then blocks[i] else if i == p then b else blocks[i + 1];
      assert Follows(blocks, p) && Follows(blocks, p + 1);
      assert Follows(blocks, if i <= p then i else i + 1);
    }
    assert Follows(blocks, p + 1);
    assert End(after) == n;
  }

  /** The block found for a row. */
  lemma DivisionOrder(blocks: seq<Block>, n: int, i: int, j: int)
    requires Division(blocks, n) && 0 <= i < j < |blocks|
    ensures blocks[i].index + blocks[i].length <= blocks[j].index
    decreases j - i
  {
    assert Follows(blocks, j);
    if i < j - 1 {
      assert Follows(blocks, j - 1);
      DivisionOrder(blocks, n, i, j - 1);
    }
  }

  // ----- fresh blocks

  /** The block of one row, before it gets lines. */
  function Single(rows: seq<Diff3Line>, j: int, three: bool): Block
    requires 0 <= j < |rows|
  {
    var d := Decide(rows[j], three);
    Block(j, j, 1, d.details, d.conflict, d.conflict && WhiteSpaceOnly(rows[j], three), d.src != A, d.src, [])
  }

  /** The line of a row without conflict. */
  function FreshLine(rows: seq<Diff3Line>, j: int, three: bool): EditLine
    requires 0 <= j < |rows|
  {
    NewLine(j).SetSource(Decide(rows[j], three).src, Decide(rows[j], three).lineRemoved)
  }

  /** The decision for the row is that of the block. */
  ghost predicate AlikeRow(b: Block, rows: seq<Diff3Line>, three: bool, j: int)
    requires 0 <= j < |rows| && InList(b, rows)
  {
    var s := Single(rows, j, three);
    && s.conflict == b.conflict && s.delta == b.delta && s.src == b.src && IsSameKind(s, b, rows)
    && (b.whiteSpaceConflict ==> s.whiteSpaceConflict)
  }

  /** One line for each row without conflict, one line for the whole conflict. */
  ghost predicate FreshList(b: Block, rows: seq<Diff3Line>, three: bool) {
    if b.conflict then b.list == [NewLine(b.id3l)]
    else |b.list| == b.length && forall i :: 0 <= i < |b.list| ==>
      0 <= b.index + i < |rows| && b.list[i] == FreshLine(rows, b.index + i, three)
  }

  ghost predicate Fresh(b: Block, rows: seq<Diff3Line>, three: bool) {
    && InList(b, rows) && 0 <= b.index == b.id3l && 0 < b.length && b.index + b.length <= |rows|
    && (forall j :: b.HasRow(j) ==> AlikeRow(b, rows, three, j))
    && FreshList(b, rows, three)
  }

  ghost predicate AllFresh(blocks: seq<Block>, rows: seq<Diff3Line>, three: bool) {
    forall i :: 0 <= i < |blocks| ==> Fresh(blocks[i], rows, three)
  }

  lemma FreshNew(rows: seq<Diff3Line>, j: int, three: bool)
    requires 0 <= j < |rows|
    ensures var s := Single(rows, j, three);
            Fresh(s.(list := if s.conflict then [NewLine(j)] else [FreshLine(rows, j, three)]), rows, three)
  {
    hide Decide, WhiteSpaceOnly, EditLine.SetSource;
    DecisionShape(rows[j], three);
  }

  /** The next row joins a block of its kind. */
  lemma FreshGrow(b: Block, rows: seq<Diff3Line>, three: bool, g: Block)
    requires Fresh(b, rows, three) && b.index + b.length < |rows|
    requires IsSameKind(Single(rows, b.index + b.length, three), b, rows)
    requires var k := b.index + b.length;
             var s := Single(rows, k, three);
             g == b.(length := b.length + 1, whiteSpaceConflict := b.whiteSpaceConflict && s.whiteSpaceConflict,
                     list := if s.conflict then b.list else b.list + [FreshLine(rows, k, three)])
    ensures Fresh(g, rows, three) && Single(rows, b.index + b.length, three).conflict == b.conflict
  {
    hide Decide, WhiteSpaceOnly, EditLine.SetSource;
    var k := b.index + b.length;
    DecisionShape(rows[k], three);
    DecisionShape(rows[b.index], three);
    assert AlikeRow(b, rows, three, b.index);
    forall j | g.HasRow(j)
      ensures AlikeRow(g, rows, three, j)
    {
      if j < k {
        assert AlikeRow(b, rows, three, j);
      }
    }
  }

  /** A conflict has no source, everything else has one. */
  lemma DecisionShape(r: Diff3Line, three: bool)
    ensures Decide(r, three).conflict <==> Decide(r, three).src == Selector.None
    ensures Decide(r, three).src in {Selector.None, A, B, C}
  {
  }

  // ----- splitting

  /** The first line that belongs to this row, or the end of the list. */
  function SplicePoint(list: seq<EditLine>, id3l: int): (k: int)
    ensures 0 <= k <= |list| && (k < |list| ==> list[k].id3l == id3l) && forall i :: 0 <= i < k ==> list[i].id3l != id3l
  {
    if |list| == 0 || list[0].id3l == id3l then 0 else 1 + SplicePoint(list[1..], id3l)
  }

  /** The two halves of a block, or the block itself and an empty one if the row does not lie in it. */
  function FirstHalf(mb: Block, idx: int): Block {
    if !mb.HasRow(idx) then mb
    else mb.(length := idx - mb.index, list := mb.list[..SplicePoint(mb.list, mb.id3l + idx - mb.index)])
  }

  function SecondHalf(mb: Block, idx: int): Block {
    if !mb.HasRow(idx) then DEFAULT_BLOCK
    else
      var id3l := mb.id3l + idx - mb.index;
      var k := SplicePoint(mb.list, id3l);
      mb.(id3l := id3l, index := idx, length := mb.length - (idx - mb.index),
          list := if k < |mb.list| then mb.list[k..] else [NewLine(id3l)])
  }

  /** `MergeBlock::split`. */
  method Split(mb: Block, d3lLineIdx2: int) returns (first: Block, mb2: Block)
    ensures first == FirstHalf(mb, d3lLineIdx2) && mb2 == SecondHalf(mb, d3lLineIdx2)
  {
    hide FirstHalf, SecondHalf;
    first, mb2 := mb, DEFAULT_BLOCK;
    if d3lLineIdx2 < mb.index || d3lLineIdx2 >= mb.index + mb.length {
      HalvesOf(mb, d3lLineIdx2, 0);
      return;
    }
    first := mb.(length := d3lLineIdx2 - mb.index);
    mb2 := mb.(id3l := mb.id3l + first.length, index := d3lLineIdx2, length := mb.length - first.length, list := []);
    var i := 0;
    while i < |mb.list|
      invariant 0 <= i <= |mb.list| && forall j :: 0 <= j < i ==> mb.list[j].id3l != mb2.id3l
    {
      if mb.list[i].id3l == mb2.id3l {
        HalvesOf(mb, d3lLineIdx2, i);
        mb2 := mb2.(list := mb.list[i..]);
        first := first.(list := mb.list[..i]);
        return;
      }
      i := i + 1;
    }
    HalvesOf(mb, d3lLineIdx2, i);
    assert mb.list[..|mb.list|] == mb.list;
    mb2 := mb2.(list := [NewLine(mb2.id3l)]);
  }

  lemma HalvesOf(mb: Block, idx: int, k: int)
    requires mb.HasRow(idx) ==> 0 <= k <= |mb.list|
    requires mb.HasRow(idx) ==> (forall j :: 0 <= j < k ==> mb.list[j].id3l != mb.id3l + idx - mb.index)
    requires mb.HasRow(idx) && k < |mb.list| ==> mb.list[k].id3l == mb.id3l + idx - mb.index
    ensures !mb.HasRow(idx) ==> FirstHalf(mb, idx) == mb && SecondHalf(mb, idx) == DEFAULT_BLOCK
    ensures mb.HasRow(idx) ==> FirstHalf(mb, idx) == mb.(length := idx - mb.index, list := mb.list[..k])
    ensures mb.HasRow(idx) ==>
              var id3l := mb.id3l + (idx - mb.index);
              SecondHalf(mb, idx) == mb.(id3l := id3l, index := idx, length := mb.length - (idx - mb.index),
                                         list := if k < |mb.list| then mb.list[k..] else [NewLine(id3l)])
  {
    hide SplicePoint;
    if mb.HasRow(idx) {
      FirstOne(mb.list, mb.id3l + idx - mb.index, k);
    }
  }

  lemma {:induction false} FirstOne(list: seq<EditLine>, id3l: int, i: int)
    requires 0 <= i <= |list| && (forall j :: 0 <= j < i ==> list[j].id3l != id3l)
    requires i < |list| ==> list[i].id3l == id3l
    ensures SplicePoint(list, id3l) == i
  {
    if i > 0 {
      FirstOne(list[1..], id3l, i - 1);
    }
  }

  /** Both halves of a fresh block are fresh. */
  lemma FreshSplit(mb: Block, rows: seq<Diff3Line>, three: bool, idx: int)
    requires Fresh(mb, rows, three) && mb.index < idx < mb.index + mb.length
    ensures Fresh(FirstHalf(mb, idx), rows, three) && Fresh(SecondHalf(mb, idx), rows, three)
  {
    hide FreshList, AlikeRow, FirstHalf, SecondHalf;
    var k := if mb.conflict then 1 else idx - mb.index;
    SplitsAt(mb, rows, three, idx, k);
    HalvesOf(mb, idx, k);
    HalvesLists(mb, rows, three, idx);
    var b, c := FirstHalf(mb, idx), SecondHalf(mb, idx);
    forall j | mb.HasRow(j)
      ensures AlikeRow(b, rows, three, j) && AlikeRow(c, rows, three, j)
    {
      AlikeHalves(mb, rows, three, idx, j, b);
      AlikeHalves(mb, rows, three, idx, j, c);
    }
  }

  lemma SplitsAt(mb: Block, rows: seq<Diff3Line>, three: bool, idx: int, k: int)
    requires Fresh(mb, rows, three) && mb.index < idx < mb.index + mb.length
    requires k == if mb.conflict then 1 else idx - mb.index
    ensures k <= |mb.list| && (forall j :: 0 <= j < k ==> mb.list[j].id3l != idx)
    ensures k < |mb.list| ==> mb.list[k].id3l == idx
  {
    hide AlikeRow, FreshLine;
    if !mb.conflict {
      FreshIds(mb, rows, three);
    }
  }

  lemma HalvesLists(mb: Block, rows: seq<Diff3Line>, three: bool, idx: int)
    requires Fresh(mb, rows, three) && mb.index < idx < mb.index + mb.length
    ensures FreshList(FirstHalf(mb, idx), rows, three) && FreshList(SecondHalf(mb, idx), rows, three)
  {
    hide AlikeRow, FreshLine, FirstHalf, SecondHalf;
    var k := if mb.conflict then 1 else idx - mb.index;
    SplitsAt(mb, rows, three, idx, k);
    HalvesOf(mb, idx, k);
    if !mb.conflict {
      var c := SecondHalf(mb, idx);
      forall i | 0 <= i < |c.list|
        ensures c.list[i] == FreshLine(rows, c.index + i, three)
      {
        assert c.list[i] == mb.list[k + i];
      }
    }
  }

  /** A row of the block is alike its other rows. */
  lemma AlikeHalves(mb: Block, rows: seq<Diff3Line>, three: bool, idx: int, j: int, h: Block)
    requires Fresh(mb, rows, three) && mb.HasRow(idx) && mb.HasRow(j)
    requires h.id3l in {mb.id3l, idx}
    requires h.details == mb.details && h.conflict == mb.conflict && h.whiteSpaceConflict == mb.whiteSpaceConflict
    requires h.delta == mb.delta && h.src == mb.src
    ensures AlikeRow(h, rows, three, j)
  {
    hide Decide, WhiteSpaceOnly, FreshList;
    assert AlikeRow(mb, rows, three, j) && AlikeRow(mb, rows, three, idx);
  }

  lemma FreshIds(mb: Block, rows: seq<Diff3Line>, three: bool)
    requires FreshList(mb, rows, three) && !mb.conflict
    ensures forall i :: 0 <= i < |mb.list| ==> mb.list[i].id3l == mb.index + i
  {
    hide Decide;
  }

  // ----- joining

  /** `MergeBlock::join`. */
  function Join(mb: Block, mb2: Block): Block {
    mb.(length := mb.length + mb2.length, list := [NewLine(mb.id3l)], conflict := mb.conflict || mb2.conflict,
        whiteSpaceConflict := mb.whiteSpaceConflict && mb2.whiteSpaceConflict, delta := mb.delta || mb2.delta)
  }
}
