/**
  The compacting pass as a function: the nine moves on a row, one row after the other.
 */
module TrimRun {
  import opened Lines
  import opened ManualDiffHelp
  import opened Diff3Lines
  import opened TrimRules
  import opened FirstLines

  /** The rows, and for each input the first row with room for its next line. */
  datatype Pass = Pass(rows: seq<Diff3Line>, a: int, b: int, c: int) {
    function At(w: Selector): int { if w == A then a else if w == B then b else c }

    function Moved(after: seq<Diff3Line>, w: Selector, next: int): Pass {
      if w == A then Pass(after, next, b, c) else if w == B then Pass(after, a, next, c) else Pass(after, a, b, next)
    }
  }

  /** The two lines are there and equal for the aligner. */
  ghost predicate EqualThere(texts: Keys, r: Diff3Line, v: Selector, s: Diff3Line, w: Selector) {
    && r.Has(v) && s.Has(w)
    && 0 <= r.Line(v) < |texts.Of(v)| && 0 <= s.Line(w) < |texts.Of(w)|
    && AlignerEqual(texts.Of(v)[r.Line(v)], texts.Of(w)[s.Line(w)])
  }

  // ----- the single moves

  /** Moves 1 to 3. */
  ghost predicate CanMatch(rows: seq<Diff3Line>, texts: Keys, entries: seq<Entry>, line: int, to: int, x: Selector,
                           y: Selector, z: Selector) {
    && 0 <= to < line < |rows| && rows[line].Has(x) && rows[to].Has(y) && rows[to].Eq(y, z)
    && EqualThere(texts, rows[line], x, rows[to], y)
    && IsValidMove(entries, rows[line].Line(x), rows[to].Line(y), x, y)
    && IsValidMove(entries, rows[line].Line(x), rows[to].Line(z), x, z)
  }

  function MatchRows(rows: seq<Diff3Line>, line: int, to: int, x: Selector, y: Selector, z: Selector): seq<Diff3Line>
    requires 0 <= to < line < |rows|
  {
    rows[to := MatchingDest(rows[to], rows[line], x, y, z)][line := MatchingSrc(rows[line], x, y, z)]
  }

  /** Moves 4 to 6. */
  ghost predicate CanLift(rows: seq<Diff3Line>, entries: seq<Entry>, line: int, to: int, x: Selector, y: Selector,
                          z: Selector) {
    && 0 <= to < line < |rows| && rows[line].Has(x) && !rows[line].Eq(x, y) && !rows[line].Eq(x, z)
    && IsValidMove(entries, rows[line].Line(x), rows[to].Line(y), x, y)
    && IsValidMove(entries, rows[line].Line(x), rows[to].Line(z), x, z)
  }

  ghost function LiftRows(rows: seq<Diff3Line>, texts: Keys, line: int, to: int, x: Selector, y: Selector, z: Selector)
    : seq<Diff3Line>
    requires 0 <= to < line < |rows|
  {
    rows[to := UnmatchedDest(rows[to], rows[line], x, y, z, EqualThere(texts, rows[line], x, rows[to], y),
                             EqualThere(texts, rows[line], x, rows[to], z))]
        [line := UnmatchedSrc(rows[line], x)]
  }

  /** Moves 7 to 9. */
  ghost predicate CanPair(rows: seq<Diff3Line>, entries: seq<Entry>, line: int, to: int, x: Selector, y: Selector,
                          z: Selector) {
    && 0 <= to < line < |rows|
    && IsValidMove(entries, rows[to].Line(z), rows[line].Line(x), z, x)
    && IsValidMove(entries, rows[to].Line(z), rows[line].Line(y), z, y)
  }

  ghost function PairRowsMoved(rows: seq<Diff3Line>, texts: Keys, line: int, to: int, x: Selector, y: Selector,
                               z: Selector): seq<Diff3Line>
    requires 0 <= to < line < |rows|
  {
    rows[to := PairDest(rows[to], rows[line], x, y, z, EqualThere(texts, rows[line], x, rows[to], z))]
        [line := PairSrc(rows[line], x, y)]
  }

  /** The guard of the moves 7 to 9: both cursors are above the row, and the flags tell a pair. */
  predicate PairFree(r: Diff3Line, line: int, i: int, j: int, x: Selector, pair: bool) {
    line > i && line > j && r.Has(x) && pair
  }

  // ----- one row

  ghost function Match(p: Pass, texts: Keys, entries: seq<Entry>, line: int, x: Selector, y: Selector, z: Selector)
    : (q: Pass)
    ensures |q.rows| == |p.rows|
  {
    var to := p.At(x);
    if CanMatch(p.rows, texts, entries, line, to, x, y, z)
    then p.Moved(MatchRows(p.rows, line, to, x, y, z), x, to + 1)
    else p
  }

  ghost function Lift(p: Pass, texts: Keys, entries: seq<Entry>, line: int, x: Selector, y: Selector, z: Selector)
    : (q: Pass)
    ensures |q.rows| == |p.rows|
  {
    var to := p.At(x);
    if CanLift(p.rows, entries, line, to, x, y, z)
    then p.Moved(LiftRows(p.rows, texts, line, to, x, y, z), x, to + 1)
    else p
  }

  lemma LiftIs(p: Pass, texts: Keys, entries: seq<Entry>, line: int, x: Selector, y: Selector, z: Selector, moved: bool,
               after: seq<Diff3Line>)
    requires moved <==> CanLift(p.rows, entries, line, p.At(x), x, y, z)
    requires moved && 0 <= p.At(x) < line < |p.rows| ==> after == LiftRows(p.rows, texts, line, p.At(x), x, y, z)
    requires !moved ==> after == p.rows
    ensures Lift(p, texts, entries, line, x, y, z) == if moved then p.Moved(after, x, p.At(x) + 1) else p
  {
    hide LiftRows;
  }

  lemma MatchIs(p: Pass, texts: Keys, entries: seq<Entry>, line: int, x: Selector, y: Selector, z: Selector,
                moved: bool, after: seq<Diff3Line>)
    requires moved <==> CanMatch(p.rows, texts, entries, line, p.At(x), x, y, z)
    requires moved && 0 <= p.At(x) < line < |p.rows| ==> after == MatchRows(p.rows, line, p.At(x), x, y, z)
    requires !moved ==> after == p.rows
    ensures Match(p, texts, entries, line, x, y, z) == if moved then p.Moved(after, x, p.At(x) + 1) else p
  {
    hide MatchRows;
  }

  ghost function MovePair(p: Pass, texts: Keys, entries: seq<Entry>, line: int, x: Selector, y: Selector, z: Selector)
    : (q: Pass)
    ensures |q.rows| == |p.rows|
  {
    var to := if p.At(x) > p.At(y) then p.At(x) else p.At(y);
    if CanPair(p.rows, entries, line, to, x, y, z)
    then p.Moved(PairRowsMoved(p.rows, texts, line, to, x, y, z), x, to + 1)
          .Moved(PairRowsMoved(p.rows, texts, line, to, x, y, z), y, to + 1)
    else p
  }

  ghost function Matches(p: Pass, texts: Keys, entries: seq<Entry>, line: int): (q: Pass)
    ensures |q.rows| == |p.rows|
  {
    Match(Match(Match(p, texts, entries, line, A, B, C), texts, entries, line, B, A, C), texts, entries, line, C, A, B)
  }

  ghost function Lifts(p: Pass, texts: Keys, entries: seq<Entry>, line: int): (q: Pass)
    ensures |q.rows| == |p.rows|
  {
    Lift(Lift(Lift(p, texts, entries, line, A, B, C), texts, entries, line, B, A, C), texts, entries, line, C, A, B)
  }

  ghost function OnePair(p: Pass, texts: Keys, entries: seq<Entry>, line: int): (q: Pass)
    requires 0 <= line < |p.rows|
    ensures |q.rows| == |p.rows|
  {
    var r := p.rows[line];
    if PairFree(r, line, p.a, p.b, A, r.bAEqB && !r.bAEqC) then MovePair(p, texts, entries, line, A, B, C)
    else if PairFree(r, line, p.a, p.c, A, r.bAEqC && !r.bAEqB) then MovePair(p, texts, entries, line, A, C, B)
    else if PairFree(r, line, p.b, p.c, B, r.bBEqC && !r.bAEqC) then MovePair(p, texts, entries, line, B, C, A)
    else p
  }

  ghost function RowPass(p: Pass, texts: Keys, entries: seq<Entry>, line: int): (q: Pass)
    requires 0 <= line < |p.rows|
    ensures |q.rows| == |p.rows|
  {
    OnePair(Lifts(Matches(p, texts, entries, line), texts, entries, line), texts, entries, line)
  }

  /** Behind the lines of this row there is room for the next ones. */
  function Passed(p: Pass, line: int): Pass
    requires 0 <= line < |p.rows|
  {
    Pass(p.rows, if p.rows[line].Has(A) then line + 1 else p.a, if p.rows[line].Has(B) then line + 1 else p.b,
         if p.rows[line].Has(C) then line + 1 else p.c)
  }

  /** Nothing moves out of a row to which all cursors point. */
  lemma NothingMoves(p: Pass, texts: Keys, entries: seq<Entry>, line: int)
    requires 0 <= line < |p.rows| && p.a == p.b == p.c == line
    ensures RowPass(p, texts, entries, line) == p
  {
  }

  // ----- the whole pass

  /** Does this row carry the first line of a manually aligned range? */
  predicate StartsRange(row: Diff3Line, e: Entry) { HasFirst(row, e, A) || HasFirst(row, e, B) || HasFirst(row, e, C) }

  /** The rows from `line` on, with `i` ranges passed; at the start of the next range nothing may move up past it. */
  ghost function Trimmed(p: Pass, texts: Keys, entries: seq<Entry>, line: int, i: int): seq<Diff3Line>
    requires 0 <= line <= |p.rows| && 0 <= i
    decreases |p.rows| - line
  {
    if line == |p.rows| then p.rows
    else if i < |entries| && StartsRange(p.rows[line], entries[i]) then
      Trimmed(Passed(RowPass(Pass(p.rows, line, line, line), texts, entries, line), line), texts, entries, line + 1,
              i + 1)
    else Trimmed(Passed(RowPass(p, texts, entries, line), line), texts, entries, line + 1, i)
  }

  lemma TrimmedNext(p: Pass, texts: Keys, entries: seq<Entry>, line: int, i: int)
    requires 0 <= line < |p.rows| && 0 <= i
    ensures var hit := i < |entries| && StartsRange(p.rows[line], entries[i]);
            var q := RowPass(if hit then Pass(p.rows, line, line, line) else p, texts, entries, line);
            Trimmed(p, texts, entries, line, i)
              == Trimmed(Passed(q, line), texts, entries, line + 1, if hit then i + 1 else i)
  {
    hide RowPass;
  }

  lemma TrimmedDone(p: Pass, texts: Keys, entries: seq<Entry>, i: int)
    requires 0 <= i
    ensures Trimmed(p, texts, entries, |p.rows|, i) == p.rows
  {
  }
}
