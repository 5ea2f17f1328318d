/**
  Manual ranges in the compacting pass: at the first line of a range nothing moves up, so first lines that
  share a row keep doing so.
 */
module TrimRanges {
  import opened Lines
  import opened ManualDiffHelp
  import opened Diff3Lines
  import opened FirstLines
  import opened TrimSteps
  import opened TrimRun

  /** The row carries all first lines of the range. */
  ghost predicate AllOf(r: Diff3Line, e: Entry) {
    forall w :: w in {A, B, C} && IsLine(e.Line1(w)) ==> HasFirst(r, e, w)
  }

  /** The range has lines in two inputs at least, and its first lines share a row. */
  ghost predicate Whole(rows: seq<Diff3Line>, e: Entry) {
    Sides(e) >= 2 && exists k :: 0 <= k < |rows| && AllOf(rows[k], e)
  }

  /** The ranges follow each other, and two first lines of each share a row. */
  ghost predicate Ranged(rows: seq<Diff3Line>, entries: seq<Entry>) {
    Ordered(rows) && Successive(entries) && forall i :: 0 <= i < |entries| ==> Met(rows, entries[i])
  }

  /** Some first line of the range lies before row `line`. */
  ghost predicate Started(rows: seq<Diff3Line>, e: Entry, line: int) {
    exists k :: 0 <= k < line && k < |rows| && StartsRange(rows[k], e)
  }

  /** The state of the pass at row `line` with i ranges passed. */
  ghost predicate RangesDone(start: seq<Diff3Line>, rows: seq<Diff3Line>, entries: seq<Entry>, line: int, i: int) {
    && 0 <= i <= |entries| && 0 <= line <= |rows| == |start|
    && (forall k :: line <= k < |rows| ==> rows[k] == start[k])
    && (forall j :: 0 <= j < i ==> Started(start, entries[j], line))
    && (forall j, k :: i <= j < |entries| && 0 <= k < line ==> !MetIn(start[k], entries[j]))
    && (forall j, k :: 0 <= j < |entries| && 0 <= k < line && AllOf(start[k], entries[j]) ==>
                         AllOf(rows[k], entries[j]))
  }

  lemma RangesStart(rows: seq<Diff3Line>, entries: seq<Entry>)
    ensures RangesDone(rows, rows, entries, 0, 0)
  {
  }

  /** Two ranges have lines in one input both, so that their rows are in the order of the ranges. */
  lemma RowsFollow(rows: seq<Diff3Line>, e: Entry, f: Entry, m: int, n: int)
    requires Ordered(rows) && Later(e, f) && 0 <= m < |rows| && 0 <= n < |rows|
    requires MetIn(rows[m], e) && MetIn(rows[n], f)
    ensures m < n
  {
    hide Ordered, Diff3Line.Line;
    var v, w :| v in {A, B, C} && w in {A, B, C} && v != w && HasFirst(rows[m], e, v) && HasFirst(rows[m], e, w);
    var x, y :| x in {A, B, C} && y in {A, B, C} && x != y && HasFirst(rows[n], f, x) && HasFirst(rows[n], f, y);
    var z := if v == x || v == y then v else w;
    assert HasFirst(rows[m], e, z) && HasFirst(rows[n], f, z);
    if n < m {
      RowsInOrder(rows, z, n, m);
    }
  }

  lemma StartedOnce(rows: seq<Diff3Line>, e: Entry, k: int, m: int)
    requires Ordered(rows) && 0 <= k < |rows| && 0 <= m < |rows| && StartsRange(rows[k], e) && AllOf(rows[m], e)
    ensures k == m
  {
    hide Ordered, Diff3Line.Line;
    var w := if HasFirst(rows[k], e, A) then A else if HasFirst(rows[k], e, B) then B else C;
    assert IsLine(e.Line1(w)) && HasFirst(rows[m], e, w);
    if k < m {
      RowsInOrder(rows, w, k, m);
    } else if m < k {
      RowsInOrder(rows, w, m, k);
    }
  }

  lemma AllOfMeets(r: Diff3Line, e: Entry)
    requires AllOf(r, e) && Sides(e) >= 2
    ensures MetIn(r, e) && StartsRange(r, e)
  {
    hide Diff3Line.Line;
    var v := if IsLine(e.lineA1) then A else B;
    var w := if IsLine(e.lineC1) then C else B;
    assert HasFirst(r, e, v) && HasFirst(r, e, w);
  }

  /** A row in which the first lines of a range meet is the one where the pass expects the range. */
  lemma ExpectedHere(start: seq<Diff3Line>, rows: seq<Diff3Line>, entries: seq<Entry>, line: int, i: int, j: int)
    requires Ranged(start, entries) && RangesDone(start, rows, entries, line, i) && line < |rows|
    requires i <= j < |entries| && MetIn(start[line], entries[j])
    ensures j == i
  {
    hide Ordered, MetIn, Started, AllOf, Later;
    if i < j {
      assert Met(start, entries[i]) && Later(entries[i], entries[j]);
      var m :| 0 <= m < |start| && MetIn(start[m], entries[i]);
      RowsFollow(start, entries[i], entries[j], m, line);
      assert false;
    }
  }

  /** All first lines in the row at hand: the pass expects this range, so that nothing moves. */
  lemma NotPassedYet(start: seq<Diff3Line>, rows: seq<Diff3Line>, entries: seq<Entry>, line: int, i: int, j: int)
    requires Ranged(start, entries) && RangesDone(start, rows, entries, line, i) && line < |rows|
    requires 0 <= j < |entries| && AllOf(start[line], entries[j])
    ensures j == i && StartsRange(rows[line], entries[i])
  {
    hide Ordered, MetIn, AllOf, Later, StartsRange;
    SidesIfMet(start, entries[j]);
    AllOfMeets(start[line], entries[j]);
    if j < i {
      assert Started(start, entries[j], line);
      var k :| 0 <= k < line && k < |start| && StartsRange(start[k], entries[j]);
      StartedOnce(start, entries[j], k, line);
      assert false;
    } else {
      ExpectedHere(start, rows, entries, line, i, j);
    }
  }

  lemma SidesIfMet(rows: seq<Diff3Line>, e: Entry)
    requires Met(rows, e)
    ensures Sides(e) >= 2
  {
    hide Diff3Line.Line;
  }

  lemma GainsKeepAllOf(r: Diff3Line, s: Diff3Line, e: Entry)
    requires Gains(r, s) && AllOf(r, e)
    ensures AllOf(s, e)
  {
  }

  lemma RangesNext(start: seq<Diff3Line>, rows: seq<Diff3Line>, after: seq<Diff3Line>, entries: seq<Entry>, line: int,
                   i: int, hit: bool)
    requires Ranged(start, entries) && RangesDone(start, rows, entries, line, i) && line < |rows|
    requires OnlyUp(rows, after, line) && hit == (i < |entries| && StartsRange(rows[line], entries[i]))
    requires hit ==> after[line] == rows[line]
    ensures RangesDone(start, after, entries, line + 1, if hit then i + 1 else i)
  {
    hide Ordered, MetIn, AllOf, Later, StartsRange, Gains, Met;
    var next := if hit then i + 1 else i;
    forall j | 0 <= j < next
      ensures Started(start, entries[j], line + 1)
    {
      if j == i {
        assert StartsRange(start[line], entries[i]);
      } else {
        assert Started(start, entries[j], line);
      }
    }
    forall j, k | next <= j < |entries| && 0 <= k < line + 1
      ensures !MetIn(start[k], entries[j])
    {
      if k == line && MetIn(start[line], entries[j]) {
        ExpectedHere(start, rows, entries, line, i, j);
        MetStarts(start[line], entries[j]);
        assert false;
      }
    }
    forall j, k | 0 <= j < |entries| && 0 <= k < line + 1 && AllOf(start[k], entries[j])
      ensures AllOf(after[k], entries[j])
    {
      if k == line {
        NotPassedYet(start, rows, entries, line, i, j);
      } else {
        GainsKeepAllOf(rows[k], after[k], entries[j]);
      }
    }
  }

  lemma MetStarts(r: Diff3Line, e: Entry)
    requires MetIn(r, e)
    ensures StartsRange(r, e)
  {
  }

  /** At the end the first lines that shared a row still do. */
  lemma RangesEnd(start: seq<Diff3Line>, rows: seq<Diff3Line>, entries: seq<Entry>, i: int)
    requires RangesDone(start, rows, entries, |rows|, i)
    ensures forall j :: 0 <= j < |entries| && Whole(start, entries[j]) ==> Whole(rows, entries[j])
  {
    hide AllOf, MetIn, Started;
    forall j | 0 <= j < |entries| && Whole(start, entries[j])
      ensures Whole(rows, entries[j])
    {
      var k :| 0 <= k < |start| && AllOf(start[k], entries[j]);
      assert AllOf(rows[k], entries[j]);
    }
  }

  // ----- empty rows

  lemma {:induction false} StaysIn(rows: seq<Diff3Line>, k: int)
    requires 0 <= k < |rows| && !rows[k].Same(NEW_ROW)
    ensures exists m :: 0 <= m < |RemoveEmpty(rows)| && RemoveEmpty(rows)[m] == rows[k]
    decreases |rows|
  {
    var head, tail := if rows[0].Same(NEW_ROW) then [] else [rows[0]], RemoveEmpty(rows[1..]);
    assert RemoveEmpty(rows) == head + tail;
    if k == 0 {
      assert (head + tail)[0] == rows[0];
    } else {
      StaysIn(rows[1..], k - 1);
      var m :| 0 <= m < |tail| && tail[m] == rows[1..][k - 1];
      assert (head + tail)[|head| + m] == tail[m] == rows[k];
    }
  }

  lemma WholeRest(rows: seq<Diff3Line>, e: Entry)
    ensures Whole(rows, e) ==> Whole(RemoveEmpty(rows), e)
    ensures Met(rows, e) ==> Met(RemoveEmpty(rows), e)
  {
    hide AllOf, RemoveEmpty;
    if Whole(rows, e) {
      var k :| 0 <= k < |rows| && AllOf(rows[k], e);
      AllOfMeets(rows[k], e);
      StaysIn(rows, k);
    }
    if Met(rows, e) {
      var k :| 0 <= k < |rows| && MetIn(rows[k], e);
      StaysIn(rows, k);
    }
  }

  lemma WholeRests(rows: seq<Diff3Line>, entries: seq<Entry>)
    ensures forall j :: 0 <= j < |entries| && Whole(rows, entries[j]) ==> Whole(RemoveEmpty(rows), entries[j])
  {
    hide Whole, RemoveEmpty;
    forall j | 0 <= j < |entries|
      ensures Whole(rows, entries[j]) ==> Whole(RemoveEmpty(rows), entries[j])
    {
      WholeRest(rows, entries[j]);
    }
  }

  lemma RangedRest(rows: seq<Diff3Line>, entries: seq<Entry>)
    requires Ranged(rows, entries)
    ensures Ranged(RemoveEmpty(rows), entries)
    ensures forall j :: 0 <= j < |entries| && Whole(rows, entries[j]) ==> Whole(RemoveEmpty(rows), entries[j])
  {
    hide Whole, Met, LinesOf, RemoveEmpty;
    RemoveEmptyKeeps(rows, A);
    RemoveEmptyKeeps(rows, B);
    RemoveEmptyKeeps(rows, C);
    forall j | 0 <= j < |entries|
      ensures Met(RemoveEmpty(rows), entries[j])
      ensures Whole(rows, entries[j]) ==> Whole(RemoveEmpty(rows), entries[j])
    {
      WholeRest(rows, entries[j]);
    }
  }
}
