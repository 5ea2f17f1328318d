/**
  What the lines of a merge block say: the texts that the output takes from the rows.
 */
module MergeTexts {
  import opened Lines
  import opened ManualDiffHelp
  import opened Diff3Lines
  import opened RowEdits
  import opened MergeRule
  import opened MergeLines
  import opened MergeBlocks

  // ----- the texts of the rows

  ghost function ToLines(t: Option<Line>): seq<Line> {
    if t.Some? then [t.value] else []
  }

  /** The lines of one input, in the order of the rows. */
  ghost function RowTexts(rows: seq<Diff3Line>, w: Selector, texts: Keys): seq<Line> {
    if |rows| == 0 then [] else ToLines(TextOf(rows[0], w, texts)) + RowTexts(rows[1..], w, texts)
  }

  lemma {:induction false} RowTextsConcat(r: seq<Diff3Line>, s: seq<Diff3Line>, w: Selector, texts: Keys)
    ensures RowTexts(r + s, w, texts) == RowTexts(r, w, texts) + RowTexts(s, w, texts)
  {
    hide TextOf;
    if |r| == 0 {
      assert r + s == s;
    } else {
      assert (r + s)[1..] == r[1..] + s;
      RowTextsConcat(r[1..], s, w, texts);
    }
  }

  /** The numbered lines. */
  ghost function Numbered(ls: seq<Line>, ns: seq<int>): seq<Line> {
    if |ns| == 0 then [] else (if 0 <= ns[0] < |ls| then [ls[ns[0]]] else []) + Numbered(ls, ns[1..])
  }

  lemma {:induction false} RowTextsByNumber(rows: seq<Diff3Line>, w: Selector, texts: Keys)
    requires InFiles(rows, texts) && w in {A, B, C}
    ensures RowTexts(rows, w, texts) == Numbered(texts.Of(w), LinesOf(rows, w))
  {
    if |rows| == 0 {
      assert Column(rows, w) == [];
    } else {
      assert RowInFiles(rows[0], texts);
      var c, rest := Column(rows, w), LinesOf(rows[1..], w);
      assert c[1..] == Column(rows[1..], w);
      RowTextsByNumber(rows[1..], w, texts);
      if rows[0].Has(w) {
        assert LinesOf(rows, w) == [c[0]] + rest && ([c[0]] + rest)[1..] == rest;
      } else {
        assert LinesOf(rows, w) == rest;
      }
    }
  }

  lemma {:induction false} AllNumbered(ls: seq<Line>, m: int)
    requires 0 <= m <= |ls|
    ensures Numbered(ls, Numbers(m, |ls|)) == ls[m..]
    decreases |ls| - m
  {
    if m < |ls| {
      AllNumbered(ls, m + 1);
      assert Numbers(m, |ls|)[1..] == Numbers(m + 1, |ls|);
    }
  }

  /** Rows that carry an input completely carry its text. */
  lemma CompleteText(rows: seq<Diff3Line>, w: Selector, texts: Keys)
    requires InFiles(rows, texts) && w in {A, B, C} && Complete(rows, w, |texts.Of(w)|)
    ensures RowTexts(rows, w, texts) == texts.Of(w)
  {
    hide LinesOf, RowTexts, Numbered, InFiles;
    RowTextsByNumber(rows, w, texts);
    AllNumbered(texts.Of(w), 0);
    assert texts.Of(w)[0..] == texts.Of(w);
  }

  // ----- choosing an input

  /** A line for each row in which the input has one. */
  function ChosenLines(rows: seq<Diff3Line>, from: int, length: int, w: Selector): (list: seq<EditLine>)
    requires 0 <= from && from + length <= |rows|
    ensures w != Invalid ==> InRows(list, |rows|)
    decreases length
  {
    if length <= 0 then []
    else
      ChosenLines(rows, from, length - 1, w)
      + (if rows[from + length - 1].Has(w) then [NewLine(from + length - 1).SetSource(w, false)] else [])
  }

  /** The lines of a block when an input is chosen: what it has there, or a note that it has nothing. */
  function Chosen(b: Block, rows: seq<Diff3Line>, w: Selector): seq<EditLine>
    requires 0 <= b.index && b.index + b.length <= |rows|
  {
    var list := ChosenLines(rows, b.index, b.length, w);
    if |list| == 0 then [NewLine(b.id3l).SetRemoved(w)] else list
  }

  lemma {:induction false} ChosenTexts(rows: seq<Diff3Line>, texts: Keys, from: int, length: int, w: Selector)
    requires InFiles(rows, texts) && w in {A, B, C} && 0 <= from && 0 <= length && from + length <= |rows|
    ensures Written(ChosenLines(rows, from, length, w), rows, texts) == RowTexts(rows[from..from + length], w, texts)
    decreases length
  {
    hide Written, RowTexts, ChosenLines, InFiles;
    if length == 0 {
      NoTexts(rows, w, texts);
      NoLinesChosen(rows, from, w);
      assert rows[from..from] == [];
    } else {
      var last := from + (length - 1);
      var before, one := ChosenLines(rows, from, length - 1, w), ChosenLines(rows, last, 1, w);
      ChosenTexts(rows, texts, from, length - 1, w);
      assert rows[from..from + length] == rows[from..last] + [rows[last]];
      RowTextsConcat(rows[from..last], [rows[last]], w, texts);
      LastLineChosen(rows, from, length, w);
      WrittenConcat(before, one, rows, texts);
      ChosenText(rows, texts, last, w);
    }
  }

  lemma NoLinesChosen(rows: seq<Diff3Line>, from: int, w: Selector)
    requires 0 <= from <= |rows|
    ensures ChosenLines(rows, from, 0, w) == []
  {
  }

  lemma LastLineChosen(rows: seq<Diff3Line>, from: int, length: int, w: Selector)
    requires 0 <= from && 0 < length && from + length <= |rows|
    ensures ChosenLines(rows, from, length, w)
            == ChosenLines(rows, from, length - 1, w) + ChosenLines(rows, from + (length - 1), 1, w)
  {
    OneLineChosen(rows, from + (length - 1), w);
  }

  lemma OneLineChosen(rows: seq<Diff3Line>, j: int, w: Selector)
    requires 0 <= j < |rows|
    ensures ChosenLines(rows, j, 1, w) == if rows[j].Has(w) then [NewLine(j).SetSource(w, false)] else []
  {
    NoLinesChosen(rows, j, w);
  }

  lemma ChosenText(rows: seq<Diff3Line>, texts: Keys, j: int, w: Selector)
    requires InFiles(rows, texts) && w in {A, B, C} && 0 <= j < |rows|
    ensures Written(ChosenLines(rows, j, 1, w), rows, texts) == RowTexts([rows[j]], w, texts)
  {
    hide Written, RowTexts, ChosenLines;
    NoTexts(rows, w, texts);
    RowTextsOne(rows[j], w, texts);
    OneLineChosen(rows, j, w);
    if rows[j].Has(w) {
      WrittenOne(NewLine(j).SetSource(w, false), rows, texts);
      assert RowInFiles(rows[j], texts);
    }
  }

  lemma NoTexts(rows: seq<Diff3Line>, w: Selector, texts: Keys)
    ensures Written([], rows, texts) == [] && RowTexts([], w, texts) == []
  {
  }

  lemma RowTextsOne(r: Diff3Line, w: Selector, texts: Keys)
    ensures RowTexts([r], w, texts) == ToLines(TextOf(r, w, texts))
  {
    assert [r][1..] == [];
  }

  /** The block stands for the lines that the given input has in its rows. */
  ghost predicate Says(b: Block, rows: seq<Diff3Line>, texts: Keys, w: Selector) {
    && InRows(b.list, |rows|) && 0 <= b.index && 0 <= b.length && b.index + b.length <= |rows|
    && Written(b.list, rows, texts) == RowTexts(rows[b.index..b.index + b.length], w, texts)
  }

  lemma ChosenSays(b: Block, rows: seq<Diff3Line>, texts: Keys, w: Selector)
    requires InFiles(rows, texts) && w in {A, B, C} && 0 <= b.index == b.id3l && 0 < b.length
    requires b.index + b.length <= |rows|
    ensures Says(b.(list := Chosen(b, rows, w)), rows, texts, w)
    ensures NothingVisibleDropped(Chosen(b, rows, w), rows, |Chosen(b, rows, w)|)
  {
    hide Written, RowTexts, ChosenLines;
    var list := ChosenLines(rows, b.index, b.length, w);
    ChosenTexts(rows, texts, b.index, b.length, w);
    if |list| == 0 {
      var e := NewLine(b.id3l).SetRemoved(w);
      WrittenOne(e, rows, texts);
      NoTexts(rows, w, texts);
      assert list == [];
    } else {
      ChosenHaveSource(rows, b.index, b.length, w);
    }
  }

  ghost predicate AllSourced(list: seq<EditLine>, rows: seq<Diff3Line>)
    requires InRows(list, |rows|)
  {
    forall i :: 0 <= i < |list| ==> list[i].HasSource(rows)
  }

  lemma {:induction false} ChosenHaveSource(rows: seq<Diff3Line>, from: int, length: int, w: Selector)
    requires w in {A, B, C} && 0 <= from && from + length <= |rows|
    ensures AllSourced(ChosenLines(rows, from, length, w), rows)
    decreases length
  {
    if length > 0 {
      ChosenHaveSource(rows, from, length - 1, w);
      var before, last := ChosenLines(rows, from, length - 1, w), from + length - 1;
      var list := ChosenLines(rows, from, length, w);
      assert list == before + (if rows[last].Has(w) then [NewLine(last).SetSource(w, false)] else []);
      forall i | 0 <= i < |list|
        ensures list[i].HasSource(rows)
      {
        if i < |before| {
          assert list[i] == before[i] && before[i].HasSource(rows);
        }
      }
    }
  }

  // ----- rows in which nothing changed

  /** All inputs have the same line. */
  ghost predicate Agreed(r: Diff3Line, texts: Keys, three: bool) {
    && TextOf(r, A, texts).Some? && TextOf(r, B, texts) == TextOf(r, A, texts)
    && (three ==> TextOf(r, C, texts) == TextOf(r, A, texts))
  }

  /** A block without change has the line of A for each of its rows, and all inputs agree there. */
  ghost predicate Unchanged(b: Block, rows: seq<Diff3Line>, texts: Keys, three: bool) {
    |b.list| == b.length && UnchangedLines(b.list, b.index, rows, texts, three)
  }

  ghost predicate UnchangedLines(list: seq<EditLine>, from: int, rows: seq<Diff3Line>, texts: Keys, three: bool) {
    forall i :: 0 <= i < |list| ==> UnchangedLine(list[i], from + i, rows, texts, three)
  }

  ghost predicate UnchangedLine(e: EditLine, j: int, rows: seq<Diff3Line>, texts: Keys, three: bool) {
    0 <= j < |rows| && e == NewLine(j).SetSource(A, false) && Agreed(rows[j], texts, three)
  }

  lemma UnchangedSlices(list: seq<EditLine>, from: int, rows: seq<Diff3Line>, texts: Keys, three: bool, k: int)
    requires UnchangedLines(list, from, rows, texts, three) && 0 <= k <= |list|
    ensures UnchangedLines(list[..k], from, rows, texts, three)
    ensures UnchangedLines(list[k..], from + k, rows, texts, three)
  {
    hide UnchangedLine;
    forall i | 0 <= i < |list| - k
      ensures UnchangedLine(list[k..][i], from + k + i, rows, texts, three)
    {
      assert list[k..][i] == list[k + i];
      assert UnchangedLine(list[k + i], from + (k + i), rows, texts, three);
    }
  }

  /** What every editing step keeps: lines belong to rows, and blocks without change stay as they are. */
  ghost predicate Sound(b: Block, rows: seq<Diff3Line>, texts: Keys, three: bool) {
    InRows(b.list, |rows|) && (!b.delta ==> Unchanged(b, rows, texts, three))
  }

  ghost predicate AllSound(blocks: seq<Block>, rows: seq<Diff3Line>, texts: Keys, three: bool) {
    forall i :: 0 <= i < |blocks| ==> Sound(blocks[i], rows, texts, three)
  }

  /** The inputs that take part in a merge. */
  predicate TakesPart(w: Selector, three: bool) { w == A || w == B || (w == C && three) }

  lemma {:induction false} AgreedTexts(rows: seq<Diff3Line>, texts: Keys, three: bool, b: Block, w: Selector, k: int)
    requires Unchanged(b, rows, texts, three) && TakesPart(w, three) && 0 <= b.index && 0 <= k <= |b.list|
    requires b.index + b.length <= |rows|
    ensures InRows(b.list[..k], |rows|)
    ensures Written(b.list[..k], rows, texts) == RowTexts(rows[b.index..b.index + k], w, texts)
    decreases k
  {
    hide Written, RowTexts, TextOf;
    if k == 0 {
      NoTexts(rows, w, texts);
      assert b.list[..0] == [] && rows[b.index..b.index] == [];
    } else {
      var r, e := rows[b.index + k - 1], b.list[k - 1];
      AgreedTexts(rows, texts, three, b, w, k - 1);
      assert b.list[..k] == b.list[..k - 1] + [e];
      assert rows[b.index..b.index + k] == rows[b.index..b.index + k - 1] + [r];
      WrittenConcat(b.list[..k - 1], [e], rows, texts);
      WrittenOne(e, rows, texts);
      RowTextsConcat(rows[b.index..b.index + k - 1], [r], w, texts);
      RowTextsOne(r, w, texts);
      assert UnchangedLine(e, b.index + (k - 1), rows, texts, three);
    }
  }

  /** A block without change stands for every input. */
  lemma UnchangedSays(b: Block, rows: seq<Diff3Line>, texts: Keys, three: bool, w: Selector)
    requires Unchanged(b, rows, texts, three) && TakesPart(w, three) && 0 <= b.index && b.index + b.length <= |rows|
    ensures Says(b, rows, texts, w) && NothingVisibleDropped(b.list, rows, |b.list|)
  {
    hide Written, RowTexts;
    AgreedTexts(rows, texts, three, b, w, |b.list|);
    assert b.list[..|b.list|] == b.list;
    forall i | 0 <= i < |b.list|
      ensures !Dropped(b.list, rows, i)
    {
      assert UnchangedLine(b.list[i], b.index + i, rows, texts, three);
    }
  }

  /** Fresh blocks are sound. */
  lemma FreshIsSound(b: Block, rows: seq<Diff3Line>, texts: Keys, three: bool)
    requires Fresh(b, rows, three) && (forall j :: 0 <= j < |rows| ==> FineTells(rows[j], texts))
    requires three ==> forall j :: 0 <= j < |rows| ==> rows[j].Has(A) || rows[j].Has(B) || rows[j].Has(C)
    ensures Sound(b, rows, texts, three)
  {
    hide Decide, FineTells, TextOf, WhiteSpaceOnly;
    FreshInRows(b, rows, three);
    if !b.delta {
      assert AlikeRow(b, rows, three, b.index);
      DecisionShape(rows[b.index], three);
      assert Decide(rows[b.index], three).src == A && !b.conflict;
      forall i | 0 <= i < |b.list|
        ensures UnchangedLine(b.list[i], b.index + i, rows, texts, three)
      {
        assert AlikeRow(b, rows, three, b.index + i);
        assert b.list[i] == FreshLine(rows, b.index + i, three);
        UnchangedAgrees(rows[b.index + i], texts, three);
      }
    }
  }

  lemma UnchangedAgrees(r: Diff3Line, texts: Keys, three: bool)
    requires FineTells(r, texts) && (three ==> r.Has(A) || r.Has(B) || r.Has(C)) && Decide(r, three).src == A
    ensures Agreed(r, texts, three) && !Decide(r, three).lineRemoved
  {
    UnchangedMeansSame(r, texts, three);
  }

  lemma FreshInRows(b: Block, rows: seq<Diff3Line>, three: bool)
    requires Fresh(b, rows, three)
    ensures InRows(b.list, |rows|)
  {
    hide Decide, AlikeRow;
    if !b.conflict {
      forall i | 0 <= i < |b.list|
        ensures 0 <= b.list[i].id3l < |rows| && b.list[i].src != Invalid
      {
        DecisionShape(rows[b.index + i], three);
      }
    }
  }

  // ----- the whole list

  ghost predicate AllInRows(blocks: seq<Block>, n: int) {
    forall i :: 0 <= i < |blocks| ==> InRows(blocks[i].list, n)
  }

  /** The texts of all blocks. */
  ghost function AllWritten(blocks: seq<Block>, rows: seq<Diff3Line>, texts: Keys): seq<Line>
    requires AllInRows(blocks, |rows|)
    decreases |blocks|
  {
    if |blocks| == 0 then []
    else AllWritten(blocks[..|blocks| - 1], rows, texts) + Written(blocks[|blocks| - 1].list, rows, texts)
  }

  /** If every block stands for the same input, the list stands for the whole input. */
  lemma {:induction false} AllSay(blocks: seq<Block>, n: int, rows: seq<Diff3Line>, texts: Keys, w: Selector)
    requires Division(blocks, n) && 0 <= n <= |rows|
    requires forall i :: 0 <= i < |blocks| ==> Says(blocks[i], rows, texts, w)
    ensures AllInRows(blocks, |rows|) && AllWritten(blocks, rows, texts) == RowTexts(rows[..n], w, texts)
    decreases |blocks|
  {
    hide Written, RowTexts;
    if |blocks| == 0 {
      NoTexts(rows, w, texts);
      assert rows[..0] == [];
    } else {
      var front, b := blocks[..|blocks| - 1], blocks[|blocks| - 1];
      DivisionPrefix(blocks, n, |blocks| - 1);
      LengthsNotNegative(front, b.index);
      assert Follows(blocks, |blocks| - 1);
      AllSay(front, b.index, rows, texts, w);
      assert rows[..n] == rows[..b.index] + rows[b.index..n];
      RowTextsConcat(rows[..b.index], rows[b.index..n], w, texts);
      assert Says(b, rows, texts, w);
    }
  }
}
