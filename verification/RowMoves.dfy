/**
  Moving lines up into rows of their own, as the correction for manual alignments does.
 */
module RowMoves {
  import opened Lines
  import opened ManualDiffHelp
  import opened Diff3Lines
  import opened RowEdits

  /** No line lost, gained or reordered, and no flag that is wrong. */
  ghost predicate Rearranged(before: seq<Diff3Line>, after: seq<Diff3Line>) {
    && LinesOf(after, A) == LinesOf(before, A) && LinesOf(after, B) == LinesOf(before, B)
    && LinesOf(after, C) == LinesOf(before, C)
    && (AllBare(before) ==> AllBare(after))
    && (forall keys :: WellFlagged(before, keys, 0) ==> WellFlagged(after, keys, 0))
  }

  lemma RearrangedSelf(rows: seq<Diff3Line>)
    ensures Rearranged(rows, rows)
  {
  }

  lemma RearrangedTrans(a: seq<Diff3Line>, b: seq<Diff3Line>, c: seq<Diff3Line>)
    requires Rearranged(a, b) && Rearranged(b, c)
    ensures Rearranged(a, c)
  {
    hide LinesOf, AllBare, WellFlagged;
  }

  /** The new row for the lines of the two inputs other than w. */
  function OthersUp(r: Diff3Line, w: Selector): Diff3Line {
    if w == A then NEW_ROW.(bBEqC := r.bBEqC, lineB := r.lineB, lineC := r.lineC)
    else if w == B then NEW_ROW.(bAEqC := r.bAEqC, lineA := r.lineA, lineC := r.lineC)
    else NEW_ROW.(bAEqB := r.bAEqB, lineA := r.lineA, lineB := r.lineB)
  }

  /** What stays behind. */
  function OthersGone(r: Diff3Line, w: Selector): Diff3Line {
    var s := r.(bAEqB := false, bAEqC := false, bBEqC := false);
    if w == A then s.(lineB := INVALID_LINE, lineC := INVALID_LINE)
    else if w == B then s.(lineA := INVALID_LINE, lineC := INVALID_LINE)
    else s.(lineA := INVALID_LINE, lineB := INVALID_LINE)
  }

  /** A row without its line of w. */
  function Gone(r: Diff3Line, w: Selector): Diff3Line {
    if w == A then r.(lineA := INVALID_LINE, bAEqB := false, bAEqC := false)
    else if w == B then r.(lineB := INVALID_LINE, bAEqB := false, bBEqC := false)
    else r.(lineC := INVALID_LINE, bBEqC := false, bAEqC := false)
  }

  /** Row r is as good as the row it was made from. */
  ghost predicate AsGood(r: Diff3Line, src: Diff3Line) {
    && (Bare(src) ==> Bare(r))
    && (forall keys :: Justified(src, keys) && Closed(src) ==> Justified(r, keys) && Closed(r))
  }

  predicate NoFlags(r: Diff3Line) { !r.bAEqB && !r.bAEqC && !r.bBEqC }

  /** The lines of row `src` are shared out: the new row takes the line of w, or the other row keeps it. */
  predicate Takes(nr: Diff3Line, sr: Diff3Line, src: Diff3Line, w: Selector) {
    nr.Line(w) == src.Line(w) && sr.Line(w) == INVALID_LINE
  }

  predicate Leaves(nr: Diff3Line, sr: Diff3Line, src: Diff3Line, w: Selector) {
    nr.Line(w) == INVALID_LINE && sr.Line(w) == src.Line(w)
  }

  /** Inserting a new row before row `dest`, with lines taken from row i. */
  function Inserted(rows: seq<Diff3Line>, dest: int, i: int, nr: Diff3Line, sr: Diff3Line): (after: seq<Diff3Line>)
    requires 0 <= dest <= i < |rows|
    ensures |after| == |rows| + 1
    ensures forall k :: 0 <= k < |after| ==>
              after[k] == if k < dest then rows[k] else if k == dest then nr else if k == i + 1 then sr else rows[k - 1]
  {
    rows[i := sr][..dest] + [nr] + rows[i := sr][dest..]
  }

  lemma InsertedAgain(rows: seq<Diff3Line>, dest: int, i: int, nr: Diff3Line, sr: Diff3Line)
    requires 0 <= dest <= i < |rows|
    ensures var r := rows[i := sr]; r[..dest] + [nr] + r[dest..] == Inserted(rows, dest, i, nr, sr)
  {
  }

  lemma InsertedRows(rows: seq<Diff3Line>, dest: int, i: int, nr: Diff3Line, sr: Diff3Line)
    requires 0 <= dest <= i < |rows|
    ensures var after := Inserted(rows, dest, i, nr, sr);
            && |after| == |rows| + 1
            && forall k {:trigger after[k]} :: 0 <= k < |after| ==>
                 after[k] == if k < dest then rows[k] else if k == dest then nr
                             else if k == i + 1 then sr else rows[k - 1]
  {
  }

  lemma InsertedColumn(rows: seq<Diff3Line>, dest: int, i: int, nr: Diff3Line, sr: Diff3Line, w: Selector)
    requires 0 <= dest <= i < |rows|
    requires Leaves(nr, sr, rows[i], w) || (Takes(nr, sr, rows[i], w) && Room(rows, w, dest, i))
    ensures LinesOf(Inserted(rows, dest, i, nr, sr), w) == LinesOf(rows, w)
  {
    hide Diff3Line.Line, LinesOf;
    var after := Inserted(rows, dest, i, nr, sr);
    var head, mid, tail := rows[..dest], rows[dest..i], rows[i + 1..];
    PartsOf(rows, dest, i, nr, sr);
    LinesOfParts(head, mid, [rows[i]], tail, w);
    LinesOfParts(head + [nr], mid, [sr], tail, w);
    LinesOfAppend(head, nr, w);
    LinesOfOne(rows[i], w);
    LinesOfOne(sr, w);
    if !Leaves(nr, sr, rows[i], w) {
      NoLinesBetween(rows, dest, i, w);
    }
  }

  lemma PartsOf(rows: seq<Diff3Line>, dest: int, i: int, nr: Diff3Line, sr: Diff3Line)
    requires 0 <= dest <= i < |rows|
    ensures rows == rows[..dest] + rows[dest..i] + [rows[i]] + rows[i + 1..]
    ensures Inserted(rows, dest, i, nr, sr) == (rows[..dest] + [nr]) + rows[dest..i] + [sr] + rows[i + 1..]
  {
    assert rows[..dest] + rows[dest..i] == rows[..i];
    assert rows[..i] + [rows[i]] == rows[..i + 1];
  }

  lemma LinesOfParts(h: seq<Diff3Line>, m: seq<Diff3Line>, s: seq<Diff3Line>, t: seq<Diff3Line>, w: Selector)
    ensures LinesOf(h + m + s + t, w) == LinesOf(h, w) + LinesOf(m, w) + LinesOf(s, w) + LinesOf(t, w)
  {
    hide LinesOf;
    LinesOfConcat(h + m + s, t, w);
    LinesOfConcat(h + m, s, w);
    LinesOfConcat(h, m, w);
  }

  lemma NoLinesBetween(rows: seq<Diff3Line>, dest: int, i: int, w: Selector)
    requires Room(rows, w, dest, i)
    ensures LinesOf(rows[dest..i], w) == []
  {
    hide LinesOf;
    forall k | 0 <= k < i - dest
      ensures !rows[dest..i][k].Has(w)
    {
      assert rows[dest..i][k] == rows[dest + k];
    }
    NoLinesOf(rows[dest..i], w);
  }

  lemma RoomAfter(rows: seq<Diff3Line>, dest: int, i: int, nr: Diff3Line, sr: Diff3Line, w: Selector)
    requires 0 <= dest <= i < |rows| && sr.Line(w) == INVALID_LINE && Room(rows, w, dest, i)
    ensures Room(Inserted(rows, dest, i, nr, sr), w, dest + 1, i + 2)
  {
  }

  lemma InsertedFlags(rows: seq<Diff3Line>, dest: int, i: int, nr: Diff3Line, sr: Diff3Line)
    requires 0 <= dest <= i < |rows| && AsGood(nr, rows[i]) && AsGood(sr, rows[i])
    ensures var after := Inserted(rows, dest, i, nr, sr);
            && (AllBare(rows) ==> AllBare(after))
            && (forall keys :: WellFlagged(rows, keys, 0) ==> WellFlagged(after, keys, 0))
  {
    hide Bare, Justified, Closed;
    var after := Inserted(rows, dest, i, nr, sr);
    forall keys | WellFlagged(rows, keys, 0)
      ensures WellFlagged(after, keys, 0)
    {
      assert Justified(rows[i], keys) && Closed(rows[i]);
      forall k | 0 <= k < |after|
        ensures Justified(after[k], keys) && Closed(after[k])
      {
        assert after[k] ==
          if k < dest then rows[k] else if k == dest then nr else if k == i + 1 then sr else rows[k - 1];
      }
    }
  }

  /** Both other inputs move up. */
  lemma MoveOthers(rows: seq<Diff3Line>, dest: int, i: int, x: Selector, y: Selector, z: Selector)
    requires Three(x, y, z) && 0 <= dest <= i < |rows| && Room(rows, y, dest, i) && Room(rows, z, dest, i)
    ensures var after := Inserted(rows, dest, i, OthersUp(rows[i], x), OthersGone(rows[i], x));
            && Rearranged(rows, after) && Room(after, y, dest + 1, i + 2) && Room(after, z, dest + 1, i + 2)
    ensures NoFlags(OthersGone(rows[i], x)) && OthersGone(rows[i], x).Line(x) == rows[i].Line(x)
    ensures OthersUp(rows[i], x).Eq(y, z) == rows[i].Eq(y, z)
  {
    hide LinesOf, AllBare, WellFlagged;
    var nr, sr := OthersUp(rows[i], x), OthersGone(rows[i], x);
    OthersRows(rows[i], x, y, z);
    InsertedColumn(rows, dest, i, nr, sr, x);
    InsertedColumn(rows, dest, i, nr, sr, y);
    InsertedColumn(rows, dest, i, nr, sr, z);
    RoomAfter(rows, dest, i, nr, sr, y);
    RoomAfter(rows, dest, i, nr, sr, z);
    InsertedFlags(rows, dest, i, nr, sr);
  }

  lemma OthersRows(r: Diff3Line, x: Selector, y: Selector, z: Selector)
    requires Three(x, y, z)
    ensures var nr, sr := OthersUp(r, x), OthersGone(r, x);
            && Leaves(nr, sr, r, x) && Takes(nr, sr, r, y) && Takes(nr, sr, r, z)
            && AsGood(nr, r) && AsGood(sr, r) && NoFlags(sr) && nr.Eq(y, z) == r.Eq(y, z)
  {
  }

  /** One input moves up alone. */
  lemma MoveOne(rows: seq<Diff3Line>, dest: int, i: int, x: Selector, y: Selector, z: Selector)
    requires Three(x, y, z) && 0 <= dest <= i < |rows| && Room(rows, x, dest, i)
    ensures var after := Inserted(rows, dest, i, NEW_ROW.SetLine(x, rows[i].Line(x)), Gone(rows[i], x));
            Rearranged(rows, after) && Room(after, x, dest + 1, i + 2)
    ensures Gone(rows[i], x).Line(y) == rows[i].Line(y) && Gone(rows[i], x).Line(z) == rows[i].Line(z)
    ensures Gone(rows[i], x).Eq(y, z) == rows[i].Eq(y, z)
  {
    hide LinesOf, AllBare, WellFlagged;
    var nr, sr := NEW_ROW.SetLine(x, rows[i].Line(x)), Gone(rows[i], x);
    OneRows(rows[i], x, y, z);
    InsertedColumn(rows, dest, i, nr, sr, x);
    InsertedColumn(rows, dest, i, nr, sr, y);
    InsertedColumn(rows, dest, i, nr, sr, z);
    RoomAfter(rows, dest, i, nr, sr, x);
    InsertedFlags(rows, dest, i, nr, sr);
  }

  lemma OneRows(r: Diff3Line, x: Selector, y: Selector, z: Selector)
    requires Three(x, y, z)
    ensures var nr, sr := NEW_ROW.SetLine(x, r.Line(x)), Gone(r, x);
            && Takes(nr, sr, r, x) && Leaves(nr, sr, r, y) && Leaves(nr, sr, r, z)
            && AsGood(nr, r) && AsGood(sr, r) && sr.Eq(y, z) == r.Eq(y, z)
  {
  }

  /** A line joins the row of the line it is aligned with. */
  lemma JoinRow(rows: seq<Diff3Line>, dest: int, i: int, x: Selector, y: Selector, z: Selector)
    requires Three(x, y, z) && 0 <= dest < i < |rows| && Room(rows, x, dest, i) && NoFlags(rows[dest])
    ensures var after := rows[dest := rows[dest].SetLine(x, rows[i].Line(x))][i := Gone(rows[i], x)];
            && Rearranged(rows, after)
            && (forall w, p, q :: w in {y, z} && Room(rows, w, p, q) ==> Room(after, w, p, q))
            && after[dest].Line(x) == rows[i].Line(x) && after[dest].Line(y) == rows[dest].Line(y)
            && after[dest].Line(z) == rows[dest].Line(z) && after[i].Eq(y, z) == rows[i].Eq(y, z)
  {
    hide LinesOf, Bare, Justified, Closed, Diff3Line.Line, Diff3Line.SetLine;
    var d, s := rows[dest].SetLine(x, rows[i].Line(x)), Gone(rows[i], x);
    var after := rows[dest := d][i := s];
    OneRows(rows[i], x, y, z);
    SetLineOnly(rows[dest], x, y, z, rows[i].Line(x));
    NoFlagsFine(rows[dest], x, rows[i].Line(x));
    MovedColumn(rows, after, x, dest, i);
    KeptColumn(rows, after, y, dest, i);
    KeptColumn(rows, after, z, dest, i);
    forall keys | WellFlagged(rows, keys, 0)
      ensures WellFlagged(after, keys, 0)
    {
      assert Justified(rows[i], keys) && Closed(rows[i]);
    }
  }

  lemma NoFlagsFine(r: Diff3Line, x: Selector, l: int)
    requires NoFlags(r)
    ensures var d := r.SetLine(x, l);
            Bare(d) == Bare(r) && Closed(d) && forall keys :: Justified(d, keys)
  {
  }
}
