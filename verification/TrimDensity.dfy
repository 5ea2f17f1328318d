/**
  What the compacting pass achieves: without manual ranges, a line that equals nothing in its row stands
  directly below a line of the same input, and two lines that equal each other but not the third of their
  row stand directly below a line of one of the two inputs.
 */
module TrimDensity {
  import Lines
  import opened ManualDiffHelp
  import opened Diff3Lines
  import opened TrimRules
  import opened TrimSteps
  import opened TrimRun

  /** The line of this input is there and equals no other line of the row. */
  predicate Lone(r: Diff3Line, w: Selector) {
    r.Has(w) && !r.Eq(w, A) && !r.Eq(w, B) && !r.Eq(w, C)
  }

  lemma LoneBy(r: Diff3Line, x: Selector, y: Selector, z: Selector)
    requires Three(x, y, z)
    ensures Lone(r, x) <==> r.Has(x) && !r.Eq(x, y) && !r.Eq(x, z)
    ensures Lone(r, y) <==> r.Has(y) && !r.Eq(x, y) && !r.Eq(y, z)
    ensures Lone(r, z) <==> r.Has(z) && !r.Eq(x, z) && !r.Eq(y, z)
  {
  }

  /** Inputs x and y are equal to each other in this row, but not to the third one. */
  predicate LonePair(r: Diff3Line, x: Selector, y: Selector, z: Selector) {
    r.Eq(x, y) && !r.Eq(x, z) && !r.Eq(y, z)
  }

  /** There is no room above: the lone line, or one line of the lone pair, has a line of its input there. */
  ghost predicate Rests(above: Diff3Line, r: Diff3Line) {
    && (forall w :: w in {A, B, C} && Lone(r, w) ==> above.Has(w))
    && (forall x, y, z :: Three(x, y, z) && LonePair(r, x, y, z) ==> above.Has(x) || above.Has(y))
  }

  /** Below the first row, lone lines follow a line of the same input, and lone pairs one of one of theirs. */
  ghost predicate Packed(rows: seq<Diff3Line>, n: int) {
    0 <= n <= |rows| && forall k :: 0 < k < n ==> Rests(rows[k - 1], rows[k])
  }

  /** The cursor of an input stands behind one of its lines, or at the start. */
  ghost predicate Behind(rows: seq<Diff3Line>, w: Selector, c: int) {
    0 <= c <= |rows| && (c > 0 ==> rows[c - 1].Has(w))
  }

  /** A row that receives a line: nothing is lost, and a new lone line has one of its input above it. */
  ghost predicate Receives(before: seq<Diff3Line>, to: int, d: Diff3Line) {
    && 0 <= to < |before|
    && (forall w :: w in {A, B, C} && before[to].Has(w) ==> d.Has(w))
    && (forall w :: w in {A, B, C} && Lone(d, w) ==> Lone(before[to], w) || (to > 0 ==> before[to - 1].Has(w)))
    && (forall x, y, z :: Three(x, y, z) && LonePair(d, x, y, z) ==>
                            LonePair(before[to], x, y, z) || EitherAbove(before, to, x, y))
  }

  /** The row above, if there is one, has a line of one of the two inputs. */
  ghost predicate EitherAbove(rows: seq<Diff3Line>, to: int, x: Selector, y: Selector) {
    0 <= to < |rows| && (to > 0 ==> rows[to - 1].Has(x) || rows[to - 1].Has(y))
  }

  /** A move keeps the rows passed packed and every cursor behind its line. */
  ghost predicate Carries(before: seq<Diff3Line>, after: seq<Diff3Line>, line: int) {
    && (Packed(before, line) ==> Packed(after, line))
    && (forall w, p :: w in {A, B, C} && p <= line && Behind(before, w, p) ==> Behind(after, w, p))
  }

  lemma CarriesSelf(rows: seq<Diff3Line>, line: int)
    ensures Carries(rows, rows, line)
  {
  }

  lemma PackedMove(before: seq<Diff3Line>, after: seq<Diff3Line>, to: int, line: int, d: Diff3Line, s: Diff3Line)
    requires 0 <= to < line < |before| && after == before[to := d][line := s] && Receives(before, to, d)
    ensures Carries(before, after, line)
    ensures forall w :: d.Has(w) ==> Behind(after, w, to + 1)
  {
    hide Lone, LonePair, Diff3Line.Line;
    if Packed(before, line) {
      forall k | 0 < k < line
        ensures Rests(after[k - 1], after[k])
      {
        assert Rests(before[k - 1], before[k]);
      }
    }
  }

  /** The flags of the pairs, each of which can be named in two ways. */
  lemma PairsBy(r: Diff3Line, x: Selector, y: Selector, z: Selector)
    requires Three(x, y, z)
    ensures LonePair(r, x, y, z) == LonePair(r, y, x, z) == (r.Eq(x, y) && !r.Eq(x, z) && !r.Eq(y, z))
    ensures LonePair(r, x, z, y) == LonePair(r, z, x, y) == (r.Eq(x, z) && !r.Eq(x, y) && !r.Eq(y, z))
    ensures LonePair(r, y, z, x) == LonePair(r, z, y, x) == (r.Eq(y, z) && !r.Eq(x, y) && !r.Eq(x, z))
    ensures forall p, q, s :: Three(p, q, s) ==> s == z || s == y || s == x
  {
  }

  lemma MatchingReceives(before: seq<Diff3Line>, to: int, src: Diff3Line, x: Selector, y: Selector, z: Selector)
    requires Three(x, y, z) && 0 <= to < |before| && src.Has(x) && before[to].Eq(y, z)
    ensures var d := MatchingDest(before[to], src, x, y, z); Receives(before, to, d) && d.Has(x)
  {
    hide Lone, LonePair, MatchingDest, Diff3Line.Line, Diff3Line.Eq;
    var d := MatchingDest(before[to], src, x, y, z);
    MatchingRows(before[to], src, x, y, z);
    PairsBy(d, x, y, z);
    LoneBy(d, x, y, z);
    LoneBy(before[to], x, y, z);
  }

  lemma UnmatchedReceives(before: seq<Diff3Line>, to: int, src: Diff3Line, x: Selector, y: Selector, z: Selector,
                          sameY: bool, sameZ: bool)
    requires Three(x, y, z) && 0 <= to < |before| && src.Has(x) && Behind(before, x, to)
    ensures var d := UnmatchedDest(before[to], src, x, y, z, sameY, sameZ); Receives(before, to, d) && d.Has(x)
  {
    hide Lone, LonePair, UnmatchedDest, Diff3Line.Line, Diff3Line.Eq;
    var d := UnmatchedDest(before[to], src, x, y, z, sameY, sameZ);
    UnmatchedRows(before[to], src, x, y, z, sameY, sameZ);
    PairsBy(d, x, y, z);
    PairsBy(before[to], x, y, z);
    LoneBy(d, x, y, z);
    LoneBy(before[to], x, y, z);
  }

  /** The line is gone from its row, and no other line became lone there. */
  lemma UnmatchedLeaves(dest: Diff3Line, src: Diff3Line, x: Selector, y: Selector, z: Selector, sameY: bool,
                        sameZ: bool)
    requires Three(x, y, z)
    ensures var s := UnmatchedSrc(src, x); !Lone(s, x) && (Lone(s, y) ==> Lone(src, y)) && (Lone(s, z) ==> Lone(src, z))
    ensures UnmatchedDest(dest, src, x, y, z, sameY, sameZ).Line(x) == src.Line(x)
  {
    hide Lone, UnmatchedDest, UnmatchedSrc, Diff3Line.Line, Diff3Line.Eq;
    var s := UnmatchedSrc(src, x);
    UnmatchedRows(dest, src, x, y, z, sameY, sameZ);
    LoneBy(s, x, y, z);
    LoneBy(src, x, y, z);
  }

  lemma PairReceives(before: seq<Diff3Line>, to: int, src: Diff3Line, x: Selector, y: Selector, z: Selector,
                     sameZ: bool)
    requires Three(x, y, z) && 0 <= to < |before| && src.Has(x)
    requires src.Eq(x, y)
    ensures var d := PairDest(before[to], src, x, y, z, sameZ);
            (src.Has(y) && EitherAbove(before, to, x, y) ==> Receives(before, to, d) && d.Has(x) && d.Has(y))
    ensures var s := PairSrc(src, x, y); !Lone(s, x) && !Lone(s, y) && (Lone(s, z) ==> Lone(src, z))
  {
    hide Lone, LonePair, PairDest, PairSrc, Diff3Line.Line, Diff3Line.Eq;
    var d, s := PairDest(before[to], src, x, y, z, sameZ), PairSrc(src, x, y);
    PairRows(before[to], src, x, y, z, sameZ);
    PairsBy(d, x, y, z);
    LoneBy(d, x, y, z);
    LoneBy(before[to], x, y, z);
    LoneBy(s, x, y, z);
    LoneBy(src, x, y, z);
  }

  /** No two inputs are flagged equal. */
  predicate NoPairs(r: Diff3Line) { !r.bAEqB && !r.bAEqC && !r.bBEqC }

  /** When a lone pair leaves, no flag stays behind. */
  lemma PairLeaves(dest: Diff3Line, src: Diff3Line, x: Selector, y: Selector, z: Selector, sameZ: bool)
    requires Three(x, y, z)
    ensures LonePair(src, x, y, z) ==> NoPairs(PairSrc(src, x, y))
  {
    hide PairDest, PairSrc, Diff3Line.Line;
    PairRows(dest, src, x, y, z, sameZ);
  }

  // ----- the three kinds of moves

  lemma MatchingDensity(before: seq<Diff3Line>, to: int, line: int, x: Selector, y: Selector, z: Selector)
    requires Three(x, y, z) && 0 <= to < line < |before| && before[line].Has(x) && before[to].Eq(y, z)
    ensures var after := before[to := MatchingDest(before[to], before[line], x, y, z)]
                               [line := MatchingSrc(before[line], x, y, z)];
            Carries(before, after, line) && Behind(after, x, to + 1)
  {
    hide MatchingDest, MatchingSrc, Receives, Carries, Behind, Diff3Line.Line;
    MatchingReceives(before, to, before[line], x, y, z);
    var d, s := MatchingDest(before[to], before[line], x, y, z), MatchingSrc(before[line], x, y, z);
    PackedMove(before, before[to := d][line := s], to, line, d, s);
  }

  lemma UnmatchedDensity(before: seq<Diff3Line>, to: int, line: int, x: Selector, y: Selector, z: Selector, sameY: bool,
                         sameZ: bool)
    requires Three(x, y, z) && 0 <= to < line < |before| && before[line].Has(x)
    ensures var d, s := UnmatchedDest(before[to], before[line], x, y, z, sameY, sameZ), UnmatchedSrc(before[line], x);
            var after := before[to := d][line := s];
            && (Behind(before, x, to) ==> Carries(before, after, line))
            && Behind(after, x, to + 1)
            && !Lone(s, x) && (Lone(s, y) ==> Lone(before[line], y)) && (Lone(s, z) ==> Lone(before[line], z))
  {
    hide UnmatchedDest, UnmatchedSrc, Receives, Carries, Lone, Diff3Line.Line;
    var d, s := UnmatchedDest(before[to], before[line], x, y, z, sameY, sameZ), UnmatchedSrc(before[line], x);
    UnmatchedLeaves(before[to], before[line], x, y, z, sameY, sameZ);
    if Behind(before, x, to) {
      UnmatchedReceives(before, to, before[line], x, y, z, sameY, sameZ);
      PackedMove(before, before[to := d][line := s], to, line, d, s);
    }
  }

  lemma PairDensity(before: seq<Diff3Line>, to: int, line: int, x: Selector, y: Selector, z: Selector, sameZ: bool)
    requires Three(x, y, z) && 0 <= to < line < |before| && before[line].Has(x) && before[line].Eq(x, y)
    ensures var d, s := PairDest(before[to], before[line], x, y, z, sameZ), PairSrc(before[line], x, y);
            var after := before[to := d][line := s];
            && (before[line].Has(y) && EitherAbove(before, to, x, y) ==>
                  Carries(before, after, line) && Behind(after, x, to + 1) && Behind(after, y, to + 1))
            && !Lone(s, x) && !Lone(s, y) && (Lone(s, z) ==> Lone(before[line], z))
            && (LonePair(before[line], x, y, z) ==> NoPairs(s))
  {
    hide PairDest, PairSrc, Receives, Carries, Lone, Behind, EitherAbove, Diff3Line.Line, Diff3Line.Eq;
    PairLeaves(before[to], before[line], x, y, z, sameZ);
    var d, s := PairDest(before[to], before[line], x, y, z, sameZ), PairSrc(before[line], x, y);
    PairReceives(before, to, before[line], x, y, z, sameZ);
    if before[line].Has(y) && EitherAbove(before, to, x, y) {
      PackedMove(before, before[to := d][line := s], to, line, d, s);
    }
  }

  /** The rows passed stay packed when a cursor of each lone line and of each lone pair stands just above it. */
  lemma PackedNext(rows: seq<Diff3Line>, line: int, a: int, b: int, c: int)
    requires Packed(rows, line) && line < |rows| && Behind(rows, A, a) && Behind(rows, B, b) && Behind(rows, C, c)
    requires LoneAtCursor(rows[line], line, a, b, c)
    ensures Packed(rows, line + 1)
  {
    hide Diff3Line.Line, Diff3Line.Eq;
    if line > 0 {
      forall x, y, z | Three(x, y, z) && LonePair(rows[line], x, y, z)
        ensures rows[line - 1].Has(x) || rows[line - 1].Has(y)
      {
        assert CursorOf(x, a, b, c) == line || CursorOf(y, a, b, c) == line;
      }
    }
  }

  /** Nothing rests on a new row unless it has neither lone lines nor lone pairs. */
  lemma OnNewRow(r: Diff3Line, s: Diff3Line)
    requires r.Same(NEW_ROW) && Rests(r, s)
    ensures Free(s)
  {
  }

  /** The row has neither lone lines nor lone pairs. */
  ghost predicate Free(r: Diff3Line) {
    && (forall w :: w in {A, B, C} ==> !Lone(r, w)) && (forall x, y, z :: Three(x, y, z) ==> !LonePair(r, x, y, z))
  }

  /** Removing empty rows does not separate a lone line or a lone pair from the line above it. */
  lemma {:induction false} PackedRest(rows: seq<Diff3Line>)
    requires Packed(rows, |rows|)
    ensures Packed(RemoveEmpty(rows), |RemoveEmpty(rows)|)
    ensures |RemoveEmpty(rows)| > 0 && !Free(RemoveEmpty(rows)[0]) ==> |rows| > 0 && rows[0] == RemoveEmpty(rows)[0]
  {
    hide Rests, Free;
    if |rows| > 0 {
      var tail := rows[1..];
      forall k | 0 < k < |tail|
        ensures Rests(tail[k - 1], tail[k])
      {
        assert tail[k] == rows[k + 1] && tail[k - 1] == rows[k];
        assert Rests(rows[k], rows[k + 1]);
      }
      PackedRest(tail);
      var rest := RemoveEmpty(tail);
      if rows[0].Same(NEW_ROW) {
        assert RemoveEmpty(rows) == rest;
        if |rest| > 0 && !Free(rest[0]) {
          assert tail[0] == rows[1] && Rests(rows[0], rows[1]);
          OnNewRow(rows[0], rows[1]);
          assert false;
        }
      } else {
        var all := [rows[0]] + rest;
        assert RemoveEmpty(rows) == all;
        forall k | 0 < k < |all|
          ensures Rests(all[k - 1], all[k])
        {
          assert all[k] == rest[k - 1];
          if k == 1 {
            FirstRests(rows, rest);
          } else {
            assert all[k - 1] == rest[k - 2];
          }
        }
      }
    }
  }

  lemma FirstRests(rows: seq<Diff3Line>, rest: seq<Diff3Line>)
    requires |rows| > 0 && |rest| > 0 && Packed(rows, |rows|)
    requires !Free(rest[0]) ==> |rows| > 1 && rest[0] == rows[1]
    ensures Rests(rows[0], rest[0])
  {
    if Free(rest[0]) {
      FreeRests(rows[0], rest[0]);
    } else {
      assert Rests(rows[0], rows[1]);
    }
  }

  lemma FreeRests(above: Diff3Line, r: Diff3Line)
    requires Free(r)
    ensures Rests(above, r)
  {
  }

  /**
    The rows passed are packed, the cursors stand behind their lines, and the flags of the row at hand can
    be trusted.
   */
  ghost predicate Dense(rows: seq<Diff3Line>, line: int, a: int, b: int, c: int) {
    && 0 <= line <= |rows| && Packed(rows, line) && Behind(rows, A, a) && Behind(rows, B, b) && Behind(rows, C, c)
    && a <= line && b <= line && c <= line
  }

  lemma DenseMove(before: seq<Diff3Line>, after: seq<Diff3Line>, line: int, a: int, b: int, c: int, a': int, b': int,
                  c': int)
    requires Dense(before, line, a, b, c) && |after| == |before|
    requires Carries(before, after, line)
    requires a' == a || (a' <= line && Behind(after, A, a'))
    requires b' == b || (b' <= line && Behind(after, B, b'))
    requires c' == c || (c' <= line && Behind(after, C, c'))
    ensures Dense(after, line, a', b', c')
  {
    hide Packed, Behind;
  }

  lemma FlagNeedsLines(rows: seq<Diff3Line>, keys: Keys, line: int, v: Selector, w: Selector)
    requires WellFlagged(rows, keys, line) && 0 <= line < |rows| && v in {A, B, C} && w in {A, B, C}
    requires rows[line].Eq(v, w)
    ensures rows[line].Has(v) && rows[line].Has(w)
  {
    assert Justified(rows[line], keys);
  }

  lemma TrustFlags(rows: seq<Diff3Line>, keys: Keys, line: int)
    requires WellFlagged(rows, keys, line) && 0 <= line < |rows|
    ensures forall v, w :: v in {A, B, C} && w in {A, B, C} && rows[line].Eq(v, w) ==>
              rows[line].Has(v) && rows[line].Has(w)
  {
    forall v, w | v in {A, B, C} && w in {A, B, C} && rows[line].Eq(v, w)
      ensures rows[line].Has(v) && rows[line].Has(w)
    {
      FlagNeedsLines(rows, keys, line, v, w);
    }
  }

  function CursorOf(w: Selector, a: int, b: int, c: int): int { if w == A then a else if w == B then b else c }

  /** A line that is still lone, or one of a pair that is, has its cursor on this row. */
  ghost predicate LoneAtCursor(r: Diff3Line, line: int, a: int, b: int, c: int) {
    && LinesAtCursor(r, line, a, b, c)
    && forall x, y, z :: Three(x, y, z) && LonePair(r, x, y, z) ==>
                           CursorOf(x, a, b, c) == line || CursorOf(y, a, b, c) == line
  }

  predicate LinesAtCursor(r: Diff3Line, line: int, a: int, b: int, c: int) {
    (Lone(r, A) ==> a == line) && (Lone(r, B) ==> b == line) && (Lone(r, C) ==> c == line)
  }

  /** The same for each pair by name. */
  lemma PairsAtCursor(r: Diff3Line, line: int, a: int, b: int, c: int)
    requires LinesAtCursor(r, line, a, b, c)
    requires LonePair(r, A, B, C) ==> a == line || b == line
    requires LonePair(r, A, C, B) ==> a == line || c == line
    requires LonePair(r, B, C, A) ==> b == line || c == line
    ensures LoneAtCursor(r, line, a, b, c)
  {
    hide Lone;
    PairsBy(r, A, B, C);
  }

  lemma StepFlags(before: seq<Diff3Line>, after: seq<Diff3Line>, texts: Keys, line: int, o: Lines.Options)
    requires Step(before, after, texts, line) && WellFlagged(before, Essences(o, texts), line)
    ensures WellFlagged(after, Essences(o, texts), line)
  {
  }

  lemma DenseStart(rows: seq<Diff3Line>)
    ensures Dense(rows, 0, 0, 0, 0)
  {
  }

  /** On to the next row: cursors of inputs with a line here move behind it. */
  lemma DenseNext(rows: seq<Diff3Line>, line: int, a: int, b: int, c: int)
    requires Dense(rows, line, a, b, c) && line < |rows| && LoneAtCursor(rows[line], line, a, b, c)
    ensures Dense(rows, line + 1, if rows[line].Has(A) then line + 1 else a, if rows[line].Has(B) then line + 1 else b,
                  if rows[line].Has(C) then line + 1 else c)
  {
    hide Lone, Diff3Line.Line;
    PackedNext(rows, line, a, b, c);
  }

  lemma DenseEnd(rows: seq<Diff3Line>, a: int, b: int, c: int)
    requires Dense(rows, |rows|, a, b, c)
    ensures Packed(RemoveEmpty(rows), |RemoveEmpty(rows)|)
  {
    PackedRest(rows);
  }

  /** In a closed row the two flags that the original looks at tell a lone pair. */
  lemma TrustPairs(rows: seq<Diff3Line>, keys: Keys, line: int)
    requires WellFlagged(rows, keys, line) && 0 <= line < |rows|
    ensures var r := rows[line];
            && (LonePair(r, A, B, C) <==> r.bAEqB && !r.bAEqC)
            && (LonePair(r, A, C, B) <==> r.bAEqC && !r.bAEqB)
            && (LonePair(r, B, C, A) <==> r.bBEqC && !r.bAEqC)
  {
    assert Closed(rows[line]);
  }

  /** Where no pair could be moved, a cursor of each lone pair stands on the row. */
  lemma PairsStay(rows: seq<Diff3Line>, keys: Keys, line: int, a: int, b: int, c: int)
    requires WellFlagged(rows, keys, line) && 0 <= line < |rows| && a <= line && b <= line && c <= line
    requires LinesAtCursor(rows[line], line, a, b, c)
    requires !PairFree(rows[line], line, a, b, A, rows[line].bAEqB && !rows[line].bAEqC)
    requires !PairFree(rows[line], line, a, c, A, rows[line].bAEqC && !rows[line].bAEqB)
    requires !PairFree(rows[line], line, b, c, B, rows[line].bBEqC && !rows[line].bAEqC)
    ensures LoneAtCursor(rows[line], line, a, b, c)
  {
    hide WellFlagged, LinesAtCursor, LoneAtCursor, Diff3Line.Line;
    TrustFlags(rows, keys, line);
    TrustPairs(rows, keys, line);
    PairsAtCursor(rows[line], line, a, b, c);
  }

  /** No pair is left in a row without flags. */
  lemma PairsGone(r: Diff3Line, line: int, a: int, b: int, c: int)
    requires NoPairs(r) && LinesAtCursor(r, line, a, b, c)
    ensures LoneAtCursor(r, line, a, b, c)
  {
    hide LinesAtCursor;
  }

  /** The later of two cursors has a line of its input above it. */
  lemma DenseAbove(rows: seq<Diff3Line>, line: int, a: int, b: int, c: int)
    requires Dense(rows, line, a, b, c) && line < |rows|
    ensures EitherAbove(rows, if a > b then a else b, A, B)
    ensures EitherAbove(rows, if a > c then a else c, A, C)
    ensures EitherAbove(rows, if b > c then b else c, B, C)
  {
    hide Packed;
  }
}
