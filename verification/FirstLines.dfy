/**
  The first lines of a manually aligned range: where they are, which of them share a row, and what the
  correction for one range does to the lines of the ranges before it.
 */
module FirstLines {
  import opened Lines
  import opened ManualDiffHelp
  import opened Diff3Lines
  import opened RowEdits
  import opened RowMoves

  // ----- finding the aligned lines

  /** The row carries the first line of the range in this input. */
  predicate HasFirst(r: Diff3Line, e: Entry, w: Selector) { r.Has(w) && e.Line1(w) == r.Line(w) }

  ghost predicate Appears(rows: seq<Diff3Line>, e: Entry, w: Selector, from: int) {
    0 <= from && exists k :: from <= k < |rows| && HasFirst(rows[k], e, w)
  }

  /** Two of the first lines share a row. */
  ghost predicate Met(rows: seq<Diff3Line>, e: Entry) {
    exists k :: 0 <= k < |rows| && MetIn(rows[k], e)
  }

  ghost predicate MetIn(r: Diff3Line, e: Entry) {
    exists v, w :: v in {A, B, C} && w in {A, B, C} && v != w && HasFirst(r, e, v) && HasFirst(r, e, w)
  }

  /** All three first lines share a row. */
  ghost predicate MetAll(rows: seq<Diff3Line>, e: Entry) {
    exists k :: 0 <= k < |rows| && AllIn(rows[k], e)
  }

  predicate AllIn(r: Diff3Line, e: Entry) { HasFirst(r, e, A) && HasFirst(r, e, B) && HasFirst(r, e, C) }

  /** The first lines of these two inputs share a row. */
  ghost predicate Together(rows: seq<Diff3Line>, e: Entry, v: Selector, w: Selector) {
    exists k :: 0 <= k < |rows| && HasFirst(rows[k], e, v) && HasFirst(rows[k], e, w)
  }

  /** If the range has lines of two inputs only, these are the two. */
  lemma MetTogether(rows: seq<Diff3Line>, e: Entry, v: Selector, w: Selector, z: Selector)
    requires Three(v, w, z) && !IsLine(e.Line1(z)) && Met(rows, e)
    ensures Together(rows, e, v, w) && !MetAll(rows, e)
  {
  }

  lemma TogetherIfMet(rows: seq<Diff3Line>, e: Entry)
    requires Met(rows, e)
    ensures forall v, w, z :: Three(v, w, z) && !IsLine(e.Line1(z)) ==> Together(rows, e, v, w)
  {
    forall v, w, z | Three(v, w, z) && !IsLine(e.Line1(z))
      ensures Together(rows, e, v, w)
    {
      MetTogether(rows, e, v, w, z);
    }
  }

  lemma AppearsLater(rows: seq<Diff3Line>, after: seq<Diff3Line>, e: Entry, w: Selector, i: int)
    requires Appears(rows, e, w, i) && 0 <= i < |rows| && !HasFirst(rows[i], e, w)
    requires |after| == |rows| + 1 && forall k :: i < k < |rows| ==> after[k + 1] == rows[k]
    ensures Appears(after, e, w, i + 2)
  {
    var k :| i <= k < |rows| && HasFirst(rows[k], e, w);
    assert HasFirst(after[k + 1], e, w);
  }

  /** In a complete list each line in range appears. */
  lemma CompleteAppears(rows: seq<Diff3Line>, e: Entry, w: Selector, n: int)
    requires Complete(rows, w, n) && 0 <= e.Line1(w) < n
    ensures Appears(rows, e, w, 0)
  {
    CompleteHas(rows, w, n, e.Line1(w));
    var k :| 0 <= k < |rows| && rows[k].Line(w) == e.Line1(w);
    assert HasFirst(rows[k], e, w);
  }

  /** Looks for the first input whose first line is in this row, leaving one input out. */
  method FirstIn(r: Diff3Line, e: Entry, omit: Selector) returns (wi: Selector)
    ensures wi in {A, B, C, Invalid}
    ensures wi != Invalid ==> wi != omit && HasFirst(r, e, wi)
    ensures wi == Invalid ==> forall w :: w in {A, B, C} && w != omit ==> !HasFirst(r, e, w)
    ensures wi in {B, C} && A != omit ==> !HasFirst(r, e, A)
    ensures wi == C && B != omit ==> !HasFirst(r, e, B)
  {
    wi := A;
    while wi != Invalid
      invariant wi in {A, B, C, Invalid}
      invariant wi in {B, C, Invalid} ==> A == omit || !HasFirst(r, e, A)
      invariant wi in {C, Invalid} ==> B == omit || !HasFirst(r, e, B)
      invariant wi == Invalid ==> C == omit || !HasFirst(r, e, C)
      decreases if wi == A then 3 else if wi == B then 2 else if wi == C then 1 else 0
    {
      if wi != omit && r.Has(wi) && e.Line1(wi) == r.Line(wi) {
        break;
      }
      wi := NextSelector(wi);
    }
  }

  /** What does not appear before row i appears from there on. */
  lemma NotBefore(rows: seq<Diff3Line>, e: Entry, i: int)
    requires 0 <= i <= |rows| && forall k, w :: 0 <= k < i && w in {A, B, C} ==> !HasFirst(rows[k], e, w)
    ensures forall w :: w in {A, B, C} && Appears(rows, e, w, 0) ==> Appears(rows, e, w, i)
  {
  }

  lemma NoneLater(rows: seq<Diff3Line>, e: Entry, w: Selector, i: int)
    requires i >= |rows|
    ensures !Appears(rows, e, w, i)
  {
  }

  // ----- the order of the rows

  ghost predicate Increasing(s: seq<int>) {
    forall i, j :: 0 <= i < j < |s| ==> s[i] < s[j]
  }

  /** The lines of each input are in order. */
  ghost predicate Ordered(rows: seq<Diff3Line>) {
    forall w :: w in {A, B, C} ==> Increasing(LinesOf(rows, w))
  }

  lemma CompleteOrdered(rows: seq<Diff3Line>, a: int, b: int, c: int)
    requires Complete(rows, A, a) && Complete(rows, B, b) && Complete(rows, C, c)
    ensures Ordered(rows)
  {
  }

  lemma StillOrdered(before: seq<Diff3Line>, after: seq<Diff3Line>)
    requires Rearranged(before, after)
    ensures Ordered(before) <==> Ordered(after)
  {
    hide LinesOf, AllBare, WellFlagged, Increasing;
  }

  lemma RowsInOrder(rows: seq<Diff3Line>, w: Selector, j: int, k: int)
    requires Ordered(rows) && w in {A, B, C} && 0 <= j < k < |rows| && rows[j].Has(w) && rows[k].Has(w)
    ensures rows[j].Line(w) < rows[k].Line(w)
  {
    hide LinesOf, Diff3Line.Line;
    LinesOfSplit(rows, k, w);
    LineListed(rows[..k], w, j);
    LineListed(rows[k..], w, 0);
    var s, t := LinesOf(rows[..k], w), LinesOf(rows[k..], w);
    var p :| 0 <= p < |s| && s[p] == rows[j].Line(w);
    var q :| 0 <= q < |t| && t[q] == rows[k].Line(w);
    assert (s + t)[p] == s[p] && (s + t)[|s| + q] == t[q];
  }

  /** From the first line of a range on there are no earlier lines of this input. */
  lemma NotEarlier(rows: seq<Diff3Line>, e: Entry, w: Selector, j: int, k: int)
    requires Ordered(rows) && w in {A, B, C} && 0 <= j <= k < |rows| && HasFirst(rows[j], e, w)
    ensures rows[k].Has(w) ==> e.Line1(w) <= rows[k].Line(w)
    ensures HasFirst(rows[k], e, w) ==> k == j
  {
    hide LinesOf, Diff3Line.Line;
    if j < k && rows[k].Has(w) {
      RowsInOrder(rows, w, j, k);
    }
  }

  /** All three can meet only in the row of the first one. */
  lemma MeetOnlyThere(rows: seq<Diff3Line>, e: Entry, w: Selector, j: int)
    requires Ordered(rows) && w in {A, B, C} && 0 <= j < |rows| && HasFirst(rows[j], e, w)
    ensures MetAll(rows, e) <==> AllIn(rows[j], e)
  {
    hide LinesOf, Diff3Line.Line, Ordered;
    if MetAll(rows, e) {
      var k :| 0 <= k < |rows| && AllIn(rows[k], e);
      if j <= k {
        NotEarlier(rows, e, w, j, k);
      } else {
        NotEarlier(rows, e, w, k, j);
      }
    }
  }

  lemma NeedsAll(rows: seq<Diff3Line>, e: Entry, z: Selector)
    requires z in {A, B, C} && !IsLine(e.Line1(z))
    ensures !MetAll(rows, e)
  {
  }

  /** The lines of an input are there, before and after. */
  lemma AppearsByLines(rows: seq<Diff3Line>, e: Entry, w: Selector)
    ensures Appears(rows, e, w, 0) <==> IsLine(e.Line1(w)) && e.Line1(w) in LinesOf(rows, w)
  {
    hide Present, Diff3Line.Line;
    var l := e.Line1(w);
    if Appears(rows, e, w, 0) {
      var k :| 0 <= k < |rows| && HasFirst(rows[k], e, w);
      LineListed(rows, w, k);
    }
    if IsLine(l) && l in LinesOf(rows, w) {
      MemberPresent(Column(rows, w), l);
      var k :| 0 <= k < |rows| && Column(rows, w)[k] == l;
      assert HasFirst(rows[k], e, w);
    }
  }

  lemma StillAppears(before: seq<Diff3Line>, after: seq<Diff3Line>, e: Entry, w: Selector)
    requires Rearranged(before, after) && w in {A, B, C}
    ensures Appears(before, e, w, 0) <==> Appears(after, e, w, 0)
  {
    hide LinesOf, AllBare, WellFlagged;
    AppearsByLines(before, e, w);
    AppearsByLines(after, e, w);
  }

  // ----- lines before a range

  /** The line lies before the range. */
  predicate Earlier(e: Entry, v: Selector, l: int) {
    v in {A, B, C} && IsLine(l) && (IsLine(e.Line1(v)) ==> l < e.Line1(v))
  }

  predicate InOneRow(r: Diff3Line, v: Selector, l: int, w: Selector, m: int) { r.Line(v) == l && r.Line(w) == m }

  ghost predicate Share(rows: seq<Diff3Line>, v: Selector, l: int, w: Selector, m: int) {
    exists k :: 0 <= k < |rows| && InOneRow(rows[k], v, l, w, m)
  }

  /** Lines before the range that share a row still do. */
  ghost predicate KeepsEarlier(before: seq<Diff3Line>, after: seq<Diff3Line>, e: Entry) {
    forall v, l, w, m :: Earlier(e, v, l) && Earlier(e, w, m) && Share(before, v, l, w, m) ==> Share(after, v, l, w, m)
  }

  ghost predicate RowKept(r: Diff3Line, s: Diff3Line, t: Diff3Line, e: Entry) {
    forall v, l, w, m :: Earlier(e, v, l) && Earlier(e, w, m) && InOneRow(r, v, l, w, m) ==>
      InOneRow(s, v, l, w, m) || InOneRow(t, v, l, w, m)
  }

  lemma KeepsSelf(rows: seq<Diff3Line>, e: Entry)
    ensures KeepsEarlier(rows, rows, e)
  {
  }

  lemma KeepsTrans(a: seq<Diff3Line>, b: seq<Diff3Line>, c: seq<Diff3Line>, e: Entry)
    requires KeepsEarlier(a, b, e) && KeepsEarlier(b, c, e)
    ensures KeepsEarlier(a, c, e)
  {
    hide Earlier, Share;
  }

  lemma InsertedKeeps(rows: seq<Diff3Line>, dest: int, i: int, nr: Diff3Line, sr: Diff3Line, e: Entry)
    requires 0 <= dest <= i < |rows| && RowKept(rows[i], nr, sr, e)
    ensures KeepsEarlier(rows, Inserted(rows, dest, i, nr, sr), e)
  {
    hide Earlier, InOneRow;
    var after := Inserted(rows, dest, i, nr, sr);
    forall v, l, w, m | Earlier(e, v, l) && Earlier(e, w, m) && Share(rows, v, l, w, m)
      ensures Share(after, v, l, w, m)
    {
      var k :| 0 <= k < |rows| && InOneRow(rows[k], v, l, w, m);
      if k == i {
        assert after[dest] == nr && after[i + 1] == sr;
      } else {
        assert after[if k < dest then k else k + 1] == rows[k];
      }
    }
  }

  /** Both other inputs move up, from a row whose line of x is not before the range. */
  lemma OthersKeep(rows: seq<Diff3Line>, dest: int, i: int, x: Selector, e: Entry)
    requires x in {A, B, C} && 0 <= dest <= i < |rows| && IsLine(e.Line1(x))
    requires rows[i].Has(x) ==> e.Line1(x) <= rows[i].Line(x)
    ensures KeepsEarlier(rows, Inserted(rows, dest, i, OthersUp(rows[i], x), OthersGone(rows[i], x)), e)
  {
    InsertedKeeps(rows, dest, i, OthersUp(rows[i], x), OthersGone(rows[i], x), e);
  }

  /** Input x moves up alone, from a row whose other lines are not before the range. */
  lemma OneKeeps(rows: seq<Diff3Line>, dest: int, i: int, x: Selector, y: Selector, z: Selector, e: Entry)
    requires Three(x, y, z) && 0 <= dest <= i < |rows| && IsLine(e.Line1(y)) && IsLine(e.Line1(z))
    requires (rows[i].Has(y) ==> e.Line1(y) <= rows[i].Line(y)) && (rows[i].Has(z) ==> e.Line1(z) <= rows[i].Line(z))
    ensures KeepsEarlier(rows, Inserted(rows, dest, i, NEW_ROW.SetLine(x, rows[i].Line(x)), Gone(rows[i], x)), e)
  {
    InsertedKeeps(rows, dest, i, NEW_ROW.SetLine(x, rows[i].Line(x)), Gone(rows[i], x), e);
  }

  /** The first line of x joins another row. */
  lemma JoinKeeps(rows: seq<Diff3Line>, dest: int, i: int, x: Selector, e: Entry)
    requires x in {A, B, C} && 0 <= dest < i < |rows| && !rows[dest].Has(x) && HasFirst(rows[i], e, x)
    ensures KeepsEarlier(rows, rows[dest := rows[dest].SetLine(x, rows[i].Line(x))][i := Gone(rows[i], x)], e)
  {
    var after := rows[dest := rows[dest].SetLine(x, rows[i].Line(x))][i := Gone(rows[i], x)];
    forall v, l, w, m | Earlier(e, v, l) && Earlier(e, w, m) && Share(rows, v, l, w, m)
      ensures Share(after, v, l, w, m)
    {
      var k :| 0 <= k < |rows| && InOneRow(rows[k], v, l, w, m);
      assert InOneRow(after[k], v, l, w, m);
    }
  }

  /** What the search for the second first line keeps; the row of the first one is `dest`, row i is next. */
  ghost predicate Searching(before: seq<Diff3Line>, rows: seq<Diff3Line>, e: Entry, dest: int, i: int, wi: Selector,
                            x: Selector, y: Selector) {
    && 0 <= dest <= i <= |rows| && dest < |rows| && HasFirst(rows[dest], e, wi) && Rearranged(before, rows)
    && Room(rows, x, dest, i) && Room(rows, y, dest, i) && (dest < i ==> NoFlags(rows[dest]))
    && (Ordered(before) ==> KeepsEarlier(before, rows, e) && (dest < i ==> !MetAll(before, e)))
    && (dest == i ==> rows == before)
    && (Appears(before, e, x, 0) ==> Appears(rows, e, x, i)) && (Appears(before, e, y, 0) ==> Appears(rows, e, y, i))
  }

  /** A row without a first line of the other two inputs: both move up. */
  lemma SearchOn(before: seq<Diff3Line>, rows: seq<Diff3Line>, e: Entry, dest: int, i: int, wi: Selector, x: Selector,
                 y: Selector)
    requires Three(wi, x, y) && Searching(before, rows, e, dest, i, wi, x, y) && i < |rows|
    requires !HasFirst(rows[i], e, x) && !HasFirst(rows[i], e, y)
    ensures var after := Inserted(rows, dest, i, OthersUp(rows[i], wi), OthersGone(rows[i], wi));
            Searching(before, after, e, dest + 1, i + 2, wi, x, y)
  {
    hide Rearranged, Ordered, KeepsEarlier, MetAll, Appears, Diff3Line.Line;
    var after := Inserted(rows, dest, i, OthersUp(rows[i], wi), OthersGone(rows[i], wi));
    MoveOthers(rows, dest, i, wi, x, y);
    RearrangedTrans(before, rows, after);
    StillOrdered(before, rows);
    if Ordered(before) {
      NotEarlier(rows, e, wi, dest, i);
      OthersKeep(rows, dest, i, wi, e);
      KeepsTrans(before, rows, after, e);
      MeetOnlyThere(rows, e, wi, dest);
    }
    if Appears(before, e, x, 0) {
      AppearsLater(rows, after, e, x, i);
    }
    if Appears(before, e, y, 0) {
      AppearsLater(rows, after, e, y, i);
    }
  }

  /** No row is left: there is no second first line. */
  lemma SearchEnds(before: seq<Diff3Line>, rows: seq<Diff3Line>, e: Entry, dest: int, i: int, wi: Selector, x: Selector,
                   y: Selector)
    requires Three(wi, x, y) && Searching(before, rows, e, dest, i, wi, x, y) && i >= |rows|
    ensures !Appears(before, e, x, 0) && !Appears(before, e, y, 0)
    ensures Ordered(before) ==> !MetAll(before, e) && !MetAll(rows, e)
  {
    hide Rearranged, Ordered, KeepsEarlier, MetAll, Diff3Line.Line;
    StillOrdered(before, rows);
    if Ordered(before) {
      MeetOnlyThere(rows, e, wi, dest);
    }
  }

  // ----- the input without range

  /** The line counts as equal: that of B or C to A's, that of A to B's. */
  predicate StopsMove(r: Diff3Line, z: Selector) { r.Has(z) && if z == C then r.bAEqC else r.bAEqB }

  /**
    The lines of input z left the rows [i, stop) for rows of their own before row `dest`; none of them was
    one that stops the move.
   */
  ghost predicate MovedUp(before: seq<Diff3Line>, after: seq<Diff3Line>, dest: int, i: int, stop: int, z: Selector) {
    var m := |after| - |before|;
    && 0 <= dest <= i <= stop <= |before| && 0 <= m
    && (forall k {:trigger after[k]} :: 0 <= k < dest ==> after[k] == before[k])
    && (forall k {:trigger after[k]} :: dest <= k < dest + m ==> OwnRow(after[k], z))
    && (forall k {:trigger after[k]} :: dest + m <= k < |after| ==> after[k] == LeftOver(before, i, stop, z, k - m))
    && (forall k {:trigger before[k]} :: i <= k < stop ==> !StopsMove(before[k], z))
  }

  /** A row with a line of this input and nothing else. */
  predicate OwnRow(r: Diff3Line, z: Selector) { r.Has(z) && r == NEW_ROW.SetLine(z, r.Line(z)) }

  /** What is left of row k. */
  function LeftOver(rows: seq<Diff3Line>, i: int, stop: int, z: Selector, k: int): Diff3Line
    requires 0 <= k < |rows|
  {
    if i <= k < stop && rows[k].Has(z) then Gone(rows[k], z) else rows[k]
  }

  lemma MovedUpStart(rows: seq<Diff3Line>, dest: int, i: int, z: Selector)
    requires 0 <= dest <= i <= |rows|
    ensures MovedUp(rows, rows, dest, i, i, z)
  {
  }

  lemma MovedUpNext(before: seq<Diff3Line>, now: seq<Diff3Line>, dest: int, i: int, stop: int, z: Selector)
    requires MovedUp(before, now, dest, i, stop, z) && stop < |before| && z in {A, B, C}
    requires !StopsMove(before[stop], z)
    ensures var m := |now| - |before|;
            && now[stop + m] == before[stop]
            && (!before[stop].Has(z) ==> MovedUp(before, now, dest, i, stop + 1, z))
            && (before[stop].Has(z) ==>
                  MovedUp(before, Inserted(now, dest + m, stop + m, NEW_ROW.SetLine(z, before[stop].Line(z)),
                                           Gone(before[stop], z)), dest, i, stop + 1, z))
  {
    hide StopsMove, Diff3Line.Line, Diff3Line.SetLine, Gone, Inserted;
    var m := |now| - |before|;
    if before[stop].Has(z) {
      var nr := NEW_ROW.SetLine(z, before[stop].Line(z));
      LineSet(NEW_ROW, z, before[stop].Line(z));
      InsertedRows(now, dest + m, stop + m, nr, Gone(before[stop], z));
      MovedUpOne(before, now, Inserted(now, dest + m, stop + m, nr, Gone(before[stop], z)), nr, dest, i, stop, z);
    }
  }

  lemma MovedUpOne(before: seq<Diff3Line>, now: seq<Diff3Line>, after: seq<Diff3Line>, nr: Diff3Line, dest: int,
                   i: int, stop: int, z: Selector)
    requires MovedUp(before, now, dest, i, stop, z) && stop < |before| && OwnRow(nr, z)
    requires !StopsMove(before[stop], z) && before[stop].Has(z) && |after| == |now| + 1
    requires var m := |now| - |before|;
             forall k {:trigger after[k]} :: 0 <= k < |after| ==>
               after[k] == if k < dest + m then now[k]
                           else if k == dest + m then nr
                           else if k == stop + m + 1 then Gone(before[stop], z)
                           else now[k - 1]
    ensures MovedUp(before, after, dest, i, stop + 1, z)
  {
    hide StopsMove, OwnRow, Diff3Line.Line, Gone;
  }

  lemma LineSet(r: Diff3Line, z: Selector, l: int)
    requires z in {A, B, C}
    ensures r.SetLine(z, l).Line(z) == l
  {
  }

  /** From the row of two first lines on, no line of the third input is left before one that counts as equal. */
  ghost predicate ThirdPassed(rows: seq<Diff3Line>, e: Entry, v: Selector, w: Selector, z: Selector) {
    exists d, i :: PassedAt(rows, e, v, w, z, d, i)
  }

  ghost predicate PassedAt(rows: seq<Diff3Line>, e: Entry, v: Selector, w: Selector, z: Selector, d: int, i: int) {
    && 0 <= d < |rows| && d <= i <= |rows| && HasFirst(rows[d], e, v) && HasFirst(rows[d], e, w)
    && Room(rows, z, d, i) && (i < |rows| ==> StopsMove(rows[i], z))
  }

  /** If the range has lines in two inputs only, those of the third have left the rows of the range. */
  ghost predicate ThirdFollowed(rows: seq<Diff3Line>, e: Entry) {
    Sides(e) == 2 ==>
      forall v, w, z :: Three(v, w, z) && !IsLine(e.Line1(z)) ==> ThirdPassed(rows, e, v, w, z)
  }

  lemma PassedHere(rows: seq<Diff3Line>, e: Entry, v: Selector, w: Selector, z: Selector, d: int, i: int)
    requires Three(v, w, z) && PassedAt(rows, e, v, w, z, d, i)
    ensures Met(rows, e) && ThirdPassed(rows, e, v, w, z)
  {
    assert MetIn(rows[d], e);
  }

  lemma PassedEither(rows: seq<Diff3Line>, e: Entry, v: Selector, w: Selector, z: Selector)
    requires ThirdPassed(rows, e, v, w, z)
    ensures ThirdPassed(rows, e, w, v, z)
  {
    var d, i :| PassedAt(rows, e, v, w, z, d, i);
    assert PassedAt(rows, e, w, v, z, d, i);
  }

  // ----- the ranges of a list

  /** Each range begins after the one before it, in all inputs in which both have lines. */
  ghost predicate Successive(entries: seq<Entry>) {
    forall i, j :: 0 <= i < j < |entries| ==> Later(entries[i], entries[j])
  }

  predicate Later(e: Entry, f: Entry) {
    forall w :: w in {A, B, C} && IsLine(e.Line1(w)) && IsLine(f.Line1(w)) ==> e.Line1(w) < f.Line1(w)
  }

  /** The number of inputs in which the range has lines. */
  function Sides(e: Entry): int {
    (if IsLine(e.lineA1) then 1 else 0) + (if IsLine(e.lineB1) then 1 else 0) + (if IsLine(e.lineC1) then 1 else 0)
  }

  /** The ranges up to this one have lines in two inputs or more. */
  ghost predicate Reached(entries: seq<Entry>, i: int) {
    0 <= i < |entries| && forall j :: 0 <= j <= i ==> Sides(entries[j]) >= 2
  }

  /** All first lines that the range names are there. */
  ghost predicate AllThere(rows: seq<Diff3Line>, e: Entry) {
    forall w :: w in {A, B, C} && IsLine(e.Line1(w)) ==> Appears(rows, e, w, 0)
  }

  /** Complete rows have the lines of every range inside the files. */
  lemma ThereIfComplete(rows: seq<Diff3Line>, e: Entry, a: int, b: int, c: int)
    requires Complete(rows, A, a) && Complete(rows, B, b) && Complete(rows, C, c)
    requires IsLine(e.lineA1) ==> 0 <= e.lineA1 < a
    requires IsLine(e.lineB1) ==> 0 <= e.lineB1 < b
    requires IsLine(e.lineC1) ==> 0 <= e.lineC1 < c
    ensures AllThere(rows, e) && Ordered(rows)
  {
    hide Complete, Appears, Ordered;
    CompleteOrdered(rows, a, b, c);
    if IsLine(e.lineA1) {
      CompleteAppears(rows, e, A, a);
    }
    if IsLine(e.lineB1) {
      CompleteAppears(rows, e, B, b);
    }
    if IsLine(e.lineC1) {
      CompleteAppears(rows, e, C, c);
    }
  }

  lemma StillThere(before: seq<Diff3Line>, after: seq<Diff3Line>, e: Entry)
    requires Rearranged(before, after)
    ensures AllThere(before, e) <==> AllThere(after, e)
  {
    hide Rearranged, Appears;
    forall w | w in {A, B, C}
      ensures Appears(before, e, w, 0) <==> Appears(after, e, w, 0)
    {
      StillAppears(before, after, e, w);
    }
  }

  /** Two of the first lines are there. */
  ghost predicate TwoAppear(rows: seq<Diff3Line>, e: Entry) {
    exists v, w :: v in {A, B, C} && w in {A, B, C} && v != w && Appears(rows, e, v, 0) && Appears(rows, e, w, 0)
  }

  lemma TwoThere(rows: seq<Diff3Line>, e: Entry)
    requires AllThere(rows, e) && Sides(e) >= 2
    ensures TwoAppear(rows, e)
  {
    hide Appears;
    if !IsLine(e.lineA1) {
      assert Appears(rows, e, B, 0) && Appears(rows, e, C, 0);
    } else if !IsLine(e.lineB1) {
      assert Appears(rows, e, A, 0) && Appears(rows, e, C, 0);
    } else {
      assert Appears(rows, e, A, 0) && Appears(rows, e, B, 0);
    }
  }

  /** The correction for a later range leaves them together. */
  lemma MetKept(before: seq<Diff3Line>, after: seq<Diff3Line>, e: Entry, f: Entry)
    requires KeepsEarlier(before, after, f) && Later(e, f) && Met(before, e)
    ensures Met(after, e)
  {
    var k :| 0 <= k < |before| && MetIn(before[k], e);
    var v, w :| v in {A, B, C} && w in {A, B, C} && v != w && HasFirst(before[k], e, v) && HasFirst(before[k], e, w);
    var l, m := e.Line1(v), e.Line1(w);
    assert InOneRow(before[k], v, l, w, m);
    assert Share(before, v, l, w, m) && Earlier(f, v, l) && Earlier(f, w, m);
    var j :| 0 <= j < |after| && InOneRow(after[j], v, l, w, m);
    assert HasFirst(after[j], e, v) && HasFirst(after[j], e, w);
    assert MetIn(after[j], e);
  }

  /** The lines of a range that begins with line 0 in all three inputs, whose third line has a row of its own. */
  lemma ThirdStaysApart(e: Entry)
    requires e.lineA1 == 0 && e.lineB1 == 0 && e.lineC1 == 0
    ensures forall rows :: rows in {[NEW_ROW.(lineA := 0, lineB := 0), NEW_ROW.(lineC := 0)],
                                    [NEW_ROW.(lineA := 0), NEW_ROW.(lineB := 0), NEW_ROW.(lineC := 0)]} ==>
              Complete(rows, A, 1) && Complete(rows, B, 1) && Complete(rows, C, 1) && AllThere(rows, e)
                && !MetAll(rows, e)
  {
    forall rows | rows in {[NEW_ROW.(lineA := 0, lineB := 0), NEW_ROW.(lineC := 0)],
                           [NEW_ROW.(lineA := 0), NEW_ROW.(lineB := 0), NEW_ROW.(lineC := 0)]}
      ensures Complete(rows, A, 1) && Complete(rows, B, 1) && Complete(rows, C, 1) && AllThere(rows, e)
      ensures !MetAll(rows, e)
    {
      forall w | w in {A, B, C}
        ensures Complete(rows, w, 1)
      {
        assert rows == (if |rows| == 2 then [rows[0]] + [rows[1]] else ([rows[0]] + [rows[1]]) + [rows[2]]);
        LinesOfOne(rows[0], w);
        LinesOfAppend([rows[0]], rows[1], w);
        LinesOfAppend([rows[0]] + [rows[1]], rows[|rows| - 1], w);
      }
      ThereIfComplete(rows, e, 1, 1, 1);
    }
  }
}
