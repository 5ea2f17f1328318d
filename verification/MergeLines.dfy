/**
  The lines of a merge result (`MergeEditLine`), their texts, and how they are written out.
 */
module MergeLines {
  import opened Lines
  import opened ManualDiffHelp
  import opened Diff3Lines
  import opened MergeRule

  /** A line of the result: the row it belongs to and the input it comes from, or an edited text. */
  datatype EditLine = EditLine(id3l: int, src: Selector, str: Line, removed: bool, changed: bool) {
    predicate IsConflict() { src == Selector.None && !removed && !changed }

    predicate IsEditableText() { !IsConflict() }

    function SetConflict(): EditLine {
      this.(src := Selector.None, removed := false, changed := false, str := [])
    }

    function SetRemoved(s: Selector): EditLine {
      this.(src := s, removed := true, str := [], changed := s == Selector.None)
    }

    function SetString(s: Line): EditLine {
      this.(str := s, removed := false, src := Selector.None, changed := true)
    }

    function SetSource(s: Selector, lineRemoved: bool): EditLine {
      var e := this.(src := s, removed := lineRemoved);
      if lineRemoved && s == Selector.None then e.(changed := true)
      else if s != Selector.None then e.(changed := false, str := [])
      else e
    }

    /** The row has a line of the input that this line comes from. */
    predicate HasSource(rows: seq<Diff3Line>)
      requires 0 <= id3l < |rows|
    {
      !removed && src in {A, B, C} && rows[id3l].Has(src)
    }

    /** The text of the line; empty if its input has no line here. */
    function GetString(rows: seq<Diff3Line>, texts: Keys): Line
      requires 0 <= id3l < |rows|
    {
      if removed || (!changed && src == Selector.None) then []
      else if changed then str
      else if TextOf(rows[id3l], src, texts).Some? then TextOf(rows[id3l], src, texts).value
      else []
    }
  }

  /** A new line stands for a conflict until it is given a source. */
  function NewLine(id3l: int): EditLine { EditLine(id3l, Selector.None, [], false, false) }

  /** The lines belong to rows of the list. */
  ghost predicate InRows(list: seq<EditLine>, n: int) {
    forall i :: 0 <= i < |list| ==> 0 <= list[i].id3l < n && list[i].src != Invalid
  }

  // ----- writing

  /** The lines with line feeds between them. */
  ghost function Joined(lines: seq<Line>, lineFeed: Line): Line
    decreases |lines|
  {
    if |lines| == 0 then []
    else if |lines| == 1 then lines[0]
    else Joined(lines[..|lines| - 1], lineFeed) + lineFeed + lines[|lines| - 1]
  }

  /** The texts of the lines that are there: neither a conflict nor removed. */
  ghost function Written(list: seq<EditLine>, rows: seq<Diff3Line>, texts: Keys): seq<Line>
    requires InRows(list, |rows|)
  {
    if |list| == 0 then []
    else (if Shown(list[0]) then [list[0].GetString(rows, texts)] else []) + Written(list[1..], rows, texts)
  }

  predicate Shown(e: EditLine) { e.IsEditableText() && !e.removed }

  lemma {:induction false} WrittenConcat(l: seq<EditLine>, m: seq<EditLine>, rows: seq<Diff3Line>, texts: Keys)
    requires InRows(l, |rows|) && InRows(m, |rows|)
    ensures InRows(l + m, |rows|) && Written(l + m, rows, texts) == Written(l, rows, texts) + Written(m, rows, texts)
  {
    hide Shown, EditLine.GetString;
    if |l| == 0 {
      assert l + m == m;
    } else {
      hide Written;
      var whole := l + m;
      assert whole[0] == l[0] && whole[1..] == l[1..] + m;
      WrittenConcat(l[1..], m, rows, texts);
      WrittenHead(l, rows, texts);
      WrittenHead(whole, rows, texts);
    }
  }

  lemma WrittenHead(list: seq<EditLine>, rows: seq<Diff3Line>, texts: Keys)
    requires InRows(list, |rows|) && |list| > 0
    ensures Written(list, rows, texts)
            == (if Shown(list[0]) then [list[0].GetString(rows, texts)] else []) + Written(list[1..], rows, texts)
  {
  }

  lemma WrittenOne(e: EditLine, rows: seq<Diff3Line>, texts: Keys)
    requires 0 <= e.id3l < |rows| && e.src != Invalid
    ensures Written([e], rows, texts) == if Shown(e) then [e.GetString(rows, texts)] else []
  {
    assert [e][1..] == [];
  }

  /** What was written, when `lines` are the texts written so far. */
  ghost predicate State(out: Line, isFirstLine: bool, lines: seq<Line>, lineFeed: Line) {
    out == Joined(lines, lineFeed) && (isFirstLine <==> |lines| == 0)
  }

  lemma JoinedOneMore(lines: seq<Line>, lineFeed: Line, s: Line)
    ensures Joined(lines + [s], lineFeed) == if |lines| == 0 then s else Joined(lines, lineFeed) + lineFeed + s
    ensures |lines| == 0 ==> Joined(lines, lineFeed) == []
  {
    assert (lines + [s])[..|lines|] == lines;
  }

  /** Writes the lines of one block. */
  method WriteLines(list: seq<EditLine>, rows: seq<Diff3Line>, texts: Keys, lineFeed: Line, out0: Line, first0: bool,
                    ghost lines0: seq<Line>)
    returns (out: Line, isFirstLine: bool)
    requires InRows(list, |rows|) && State(out0, first0, lines0, lineFeed)
    ensures State(out, isFirstLine, lines0 + Written(list, rows, texts), lineFeed)
  {
    hide EditLine.GetString, Joined, Written;
    out, isFirstLine := out0, first0;
    var i := 0;
    ghost var done: seq<Line> := [];
    NothingWritten(list, rows, texts);
    assert lines0 + done == lines0;
    while i < |list|
      invariant 0 <= i <= |list| && done == Written(list[..i], rows, texts)
      invariant State(out, isFirstLine, lines0 + done, lineFeed)
    {
      var mel := list[i];
      assert list[..i + 1] == list[..i] + [mel];
      WrittenConcat(list[..i], [mel], rows, texts);
      WrittenOne(mel, rows, texts);
      if mel.IsEditableText() {
        var str := mel.GetString(rows, texts);
        JoinedOneMore(lines0 + done, lineFeed, str);
        assert (lines0 + done) + [str] == lines0 + (done + [str]);
        if mel.removed {
          RemovedIsEmpty(mel, rows, texts);
        }
        if !isFirstLine && !mel.removed {
          out := out + lineFeed;
        }
        if isFirstLine {
          isFirstLine := mel.removed;
        }
        out := out + str;
      }
      assert done + [] == done && out + [] == out;
      done := Written(list[..i + 1], rows, texts);
      i := i + 1;
    }
    assert list[..|list|] == list;
  }

  lemma RemovedIsEmpty(e: EditLine, rows: seq<Diff3Line>, texts: Keys)
    requires 0 <= e.id3l < |rows| && e.removed
    ensures e.GetString(rows, texts) == []
  {
  }

  lemma NothingWritten(list: seq<EditLine>, rows: seq<Diff3Line>, texts: Keys)
    requires InRows(list, |rows|)
    ensures Written(list[..0], rows, texts) == []
  {
  }

  // ----- removing lines without source

  /** The line has no source and neither has the one before it, and both name the same input. */
  predicate Dropped(list: seq<EditLine>, rows: seq<Diff3Line>, i: int)
    requires 0 <= i < |list| && 0 <= list[i].id3l < |rows| && (i > 0 ==> 0 <= list[i - 1].id3l < |rows|)
  {
    i > 0 && !list[i].HasSource(rows) && !list[i - 1].HasSource(rows) && list[i - 1].src == list[i].src
  }

  /** The lines that are kept of the first k lines. */
  ghost function KeptLines(list: seq<EditLine>, rows: seq<Diff3Line>, k: int): seq<EditLine>
    requires InRows(list, |rows|) && 0 <= k <= |list|
  {
    if k == 0 then [] else KeptLines(list, rows, k - 1) + (if Dropped(list, rows, k - 1) then [] else [list[k - 1]])
  }

  /** `MergeBlock::removeEmptySource`. */
  method RemoveEmptySource(list: seq<EditLine>, rows: seq<Diff3Line>) returns (kept: seq<EditLine>)
    requires InRows(list, |rows|)
    ensures kept == KeptLines(list, rows, |list|)
  {
    kept := list;
    var melIt, i := 0, 0;
    var oldValid, oldSrc := false, Invalid;
    while melIt < |kept|
      invariant 0 <= melIt <= |kept| && 0 <= i <= |list| && kept[melIt..] == list[i..]
      invariant kept[..melIt] == KeptLines(list, rows, i)
      invariant i == 0 ==> !oldValid && oldSrc == Invalid && melIt == 0
      invariant i > 0 ==> oldValid == list[i - 1].HasSource(rows) && oldSrc == list[i - 1].src
      decreases |list| - i
    {
      var mel := kept[melIt];
      assert mel == kept[melIt..][0] == list[i];
      var melsrc := mel.src;
      var srcLine := mel.HasSource(rows);
      assert kept[melIt..][1..] == kept[melIt + 1..] && list[i..][1..] == list[i + 1..];
      if !srcLine && !oldValid && oldSrc == melsrc {
        kept := kept[..melIt] + kept[melIt + 1..];
      } else {
        assert kept[..melIt + 1] == kept[..melIt] + [mel];
        melIt := melIt + 1;
      }
      oldValid, oldSrc := srcLine, melsrc;
      i := i + 1;
    }
    assert kept[..melIt] == kept;
  }

  lemma {:induction false} KeptInRows(list: seq<EditLine>, rows: seq<Diff3Line>, k: int)
    requires InRows(list, |rows|) && 0 <= k <= |list|
    ensures InRows(KeptLines(list, rows, k), |rows|) && (k > 0 ==> |KeptLines(list, rows, k)| > 0)
  {
    hide Dropped;
    if k > 0 {
      KeptInRows(list, rows, k - 1);
      FirstStays(list, rows);
    }
  }

  lemma FirstStays(list: seq<EditLine>, rows: seq<Diff3Line>)
    requires InRows(list, |rows|) && |list| > 0
    ensures !Dropped(list, rows, 0)
  {
  }

  /** Nothing visible is dropped. */
  ghost predicate NothingVisibleDropped(list: seq<EditLine>, rows: seq<Diff3Line>, k: int)
    requires InRows(list, |rows|) && k <= |list|
  {
    forall i :: 0 <= i < k ==> !(Dropped(list, rows, i) && Shown(list[i]))
  }

  /** Removing lines changes what is written exactly when a visible line is dropped. */
  lemma {:induction false} DroppingIsInvisible(list: seq<EditLine>, rows: seq<Diff3Line>, texts: Keys, k: int)
    requires InRows(list, |rows|) && 0 <= k <= |list|
    ensures InRows(KeptLines(list, rows, k), |rows|)
    ensures |Written(KeptLines(list, rows, k), rows, texts)| <= |Written(list[..k], rows, texts)|
    ensures Written(KeptLines(list, rows, k), rows, texts) == Written(list[..k], rows, texts) <==>
              NothingVisibleDropped(list, rows, k)
  {
    hide Dropped, Shown, Written, EditLine.GetString;
    KeptInRows(list, rows, k);
    if k > 0 {
      var last := list[k - 1];
      var before := KeptLines(list, rows, k - 1);
      KeptInRows(list, rows, k - 1);
      DroppingIsInvisible(list, rows, texts, k - 1);
      assert list[..k] == list[..k - 1] + [last];
      WrittenConcat(list[..k - 1], [last], rows, texts);
      WrittenOne(last, rows, texts);
      var tail := Written([last], rows, texts);
      if Dropped(list, rows, k - 1) {
        assert before + [] == before;
      } else {
        WrittenConcat(before, [last], rows, texts);
        SameTail(Written(before, rows, texts), Written(list[..k - 1], rows, texts), tail);
      }
      assert NothingVisibleDropped(list, rows, k) <==>
               NothingVisibleDropped(list, rows, k - 1) && !(Dropped(list, rows, k - 1) && Shown(last));
    } else {
      assert list[..0] == KeptLines(list, rows, 0);
    }
  }

  lemma SameTail(a: seq<Line>, b: seq<Line>, t: seq<Line>)
    ensures a + t == b + t <==> a == b
  {
    if a + t == b + t {
      assert a == (a + t)[..|a|] && b == (b + t)[..|b|];
    }
  }

  /** An edited line is dropped exactly when the line before it has no source either. */
  lemma EditedLineDropped(list: seq<EditLine>, rows: seq<Diff3Line>, i: int)
    requires InRows(list, |rows|) && 0 <= i < |list| && list[i].changed && list[i].src == Selector.None
    ensures Dropped(list, rows, i) <==> i > 0 && list[i - 1].src == Selector.None
  {
  }

  /** So of two edited lines in a row the second one is lost. */
  lemma SecondEditedLineIsLost(r: Diff3Line, s: Line, t: Line, texts: Keys)
    ensures var e := NewLine(0);
            KeptLines([e.SetString(s), e.SetString(t)], [r], 2) == [e.SetString(s)]
  {
    var e := NewLine(0);
    var list := [e.SetString(s), e.SetString(t)];
    assert KeptLines(list, [r], 1) == [list[0]];
  }
}
