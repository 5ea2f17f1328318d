/**
  The moves of the compacting pass (`calcDiff3LineListTrim`), seen on the two rows they touch: a line
  (or a pair of equal lines) of a later row goes up into an earlier row that has room for it.

  The original writes each of its nine moves out; they are three kinds of moves, each for every
  choice of inputs.  x and y stand for inputs that move or are compared, z for the third one.
 */
module TrimRules {
  import opened Lines
  import opened ManualDiffHelp
  import opened Diff3Lines
  import opened Pairs

  /** A single line that matches both other lines of the earlier row. */
  function MatchingDest(dest: Diff3Line, src: Diff3Line, x: Selector, y: Selector, z: Selector): Diff3Line {
    dest.SetLine(x, src.Line(x)).SetEq(x, y, true).SetEq(x, z, true)
  }

  function MatchingSrc(src: Diff3Line, x: Selector, y: Selector, z: Selector): Diff3Line {
    src.SetLine(x, INVALID_LINE).SetEq(x, y, false).SetEq(x, z, false)
  }

  /** A single line that matches nothing in its own row; sameY and sameZ say what it matches in the earlier row. */
  function UnmatchedDest(dest: Diff3Line, src: Diff3Line, x: Selector, y: Selector, z: Selector, sameY: bool,
                         sameZ: bool): Diff3Line {
    var r := dest.SetLine(x, src.Line(x));
    var r1 := if r.Has(y) && sameY then r.SetEq(x, y, true) else r;
    if (r1.Eq(x, y) && r1.Eq(y, z)) || (r1.Has(z) && sameZ) then r1.SetEq(x, z, true) else r1
  }

  function UnmatchedSrc(src: Diff3Line, x: Selector): Diff3Line {
    src.SetLine(x, INVALID_LINE)
  }

  /** Two equal lines that do not match the third of their row; sameZ says whether they match the earlier row's. */
  function PairDest(dest: Diff3Line, src: Diff3Line, x: Selector, y: Selector, z: Selector, sameZ: bool): Diff3Line {
    var r := dest.SetLine(x, src.Line(x)).SetLine(y, src.Line(y)).SetEq(x, y, true);
    if r.Has(z) && sameZ then r.SetEq(x, z, true).SetEq(y, z, true) else r
  }

  function PairSrc(src: Diff3Line, x: Selector, y: Selector): Diff3Line {
    src.SetLine(x, INVALID_LINE).SetLine(y, INVALID_LINE).SetEq(x, y, false)
  }

  /** The result of an equality test between the moved line and a line of the earlier row. */
  ghost predicate Tested(same: bool, keys: Keys, v: Selector, i: int, w: Selector, j: int) {
    0 <= i < |keys.Of(v)| && 0 <= j < |keys.Of(w)| ==> (same <==> keys.Of(v)[i] == keys.Of(w)[j])
  }

  /** A positive test is right about the keys; a negative one need not be. */
  ghost predicate TestedTrue(same: bool, keys: Keys, v: Selector, i: int, w: Selector, j: int) {
    same ==> 0 <= i < |keys.Of(v)| && 0 <= j < |keys.Of(w)| && keys.Of(v)[i] == keys.Of(w)[j]
  }

  // ----- the rows that result, field by field

  lemma MatchingRows(dest: Diff3Line, src: Diff3Line, x: Selector, y: Selector, z: Selector)
    requires Three(x, y, z)
    ensures var r := MatchingDest(dest, src, x, y, z);
            && r.Line(x) == src.Line(x) && r.Line(y) == dest.Line(y) && r.Line(z) == dest.Line(z)
            && r.Eq(x, y) && r.Eq(x, z) && r.Eq(y, z) == dest.Eq(y, z)
    ensures var r := MatchingSrc(src, x, y, z);
            && r.Line(x) == INVALID_LINE && r.Line(y) == src.Line(y) && r.Line(z) == src.Line(z)
            && !r.Eq(x, y) && !r.Eq(x, z) && r.Eq(y, z) == src.Eq(y, z)
  {
    hide Diff3Line.SetLine, Diff3Line.SetEq, Diff3Line.Line, Diff3Line.Eq;
    var d, s := dest.SetLine(x, src.Line(x)), src.SetLine(x, INVALID_LINE);
    SetLineOnly(dest, x, y, z, src.Line(x));
    SetEqOnly(d, x, y, z, true);
    SetEqOnly(d.SetEq(x, y, true), x, z, y, true);
    SetLineOnly(src, x, y, z, INVALID_LINE);
    SetEqOnly(s, x, y, z, false);
    SetEqOnly(s.SetEq(x, y, false), x, z, y, false);
    EqSymmetric(d.SetEq(x, y, true), x, y, z);
    EqSymmetric(s.SetEq(x, y, false), x, y, z);
    EqSymmetric(MatchingDest(dest, src, x, y, z), x, y, z);
    EqSymmetric(MatchingSrc(src, x, y, z), x, y, z);
  }

  lemma EqSymmetric(r: Diff3Line, x: Selector, y: Selector, z: Selector)
    ensures r.Eq(x, y) == r.Eq(y, x) && r.Eq(x, z) == r.Eq(z, x) && r.Eq(y, z) == r.Eq(z, y)
  {
  }

  lemma UnmatchedRows(dest: Diff3Line, src: Diff3Line, x: Selector, y: Selector, z: Selector, sameY: bool, sameZ: bool)
    requires Three(x, y, z)
    ensures var r := UnmatchedDest(dest, src, x, y, z, sameY, sameZ);
            && r.Line(x) == src.Line(x) && r.Line(y) == dest.Line(y) && r.Line(z) == dest.Line(z)
            && r.Eq(x, y) == (dest.Eq(x, y) || (dest.Has(y) && sameY))
            && r.Eq(x, z) == (dest.Eq(x, z) || (r.Eq(x, y) && dest.Eq(y, z)) || (dest.Has(z) && sameZ))
            && r.Eq(y, z) == dest.Eq(y, z)
    ensures var r := UnmatchedSrc(src, x);
            && r.Line(x) == INVALID_LINE && r.Line(y) == src.Line(y) && r.Line(z) == src.Line(z)
            && r.Eq(x, y) == src.Eq(x, y) && r.Eq(x, z) == src.Eq(x, z) && r.Eq(y, z) == src.Eq(y, z)
  {
    hide Diff3Line.SetLine, Diff3Line.SetEq, Diff3Line.Line, Diff3Line.Eq;
    var r := dest.SetLine(x, src.Line(x));
    var r1 := if r.Has(y) && sameY then r.SetEq(x, y, true) else r;
    SetLineOnly(dest, x, y, z, src.Line(x));
    SetEqOnly(r, x, y, z, true);
    SetEqOnly(r1, x, z, y, true);
    EqSymmetric(r1, x, y, z);
    EqSymmetric(r1.SetEq(x, z, true), x, y, z);
    SetLineOnly(src, x, y, z, INVALID_LINE);
    UnmatchedUnfold(dest, src, x, y, z, sameY, sameZ);
  }

  lemma UnmatchedUnfold(dest: Diff3Line, src: Diff3Line, x: Selector, y: Selector, z: Selector, sameY: bool,
                        sameZ: bool)
    ensures var r := dest.SetLine(x, src.Line(x));
            var r1 := if r.Has(y) && sameY then r.SetEq(x, y, true) else r;
            UnmatchedDest(dest, src, x, y, z, sameY, sameZ)
              == if (r1.Eq(x, y) && r1.Eq(y, z)) || (r1.Has(z) && sameZ) then r1.SetEq(x, z, true) else r1
  {
  }

  lemma PairRows(dest: Diff3Line, src: Diff3Line, x: Selector, y: Selector, z: Selector, sameZ: bool)
    requires Three(x, y, z)
    ensures var r := PairDest(dest, src, x, y, z, sameZ);
            && r.Line(x) == src.Line(x) && r.Line(y) == src.Line(y) && r.Line(z) == dest.Line(z)
            && r.Eq(x, y)
            && r.Eq(x, z) == (dest.Eq(x, z) || (dest.Has(z) && sameZ))
            && r.Eq(y, z) == (dest.Eq(y, z) || (dest.Has(z) && sameZ))
    ensures var r := PairSrc(src, x, y);
            && r.Line(x) == INVALID_LINE && r.Line(y) == INVALID_LINE && r.Line(z) == src.Line(z)
            && !r.Eq(x, y) && r.Eq(x, z) == src.Eq(x, z) && r.Eq(y, z) == src.Eq(y, z)
  {
    hide Diff3Line.SetLine, Diff3Line.SetEq, Diff3Line.Line, Diff3Line.Eq;
    var r0 := dest.SetLine(x, src.Line(x));
    var r1 := r0.SetLine(y, src.Line(y));
    var r := r1.SetEq(x, y, true);
    SetLineOnly(dest, x, y, z, src.Line(x));
    SetLineOnly(r0, y, x, z, src.Line(y));
    SetEqOnly(r1, x, y, z, true);
    SetEqOnly(r, x, z, y, true);
    SetEqOnly(r.SetEq(x, z, true), y, z, x, true);
    EqSymmetric(r0, x, y, z);
    EqSymmetric(r1, x, y, z);
    EqSymmetric(r, x, y, z);
    EqSymmetric(r.SetEq(x, z, true), x, y, z);
    EqSymmetric(PairDest(dest, src, x, y, z, sameZ), x, y, z);
    var s0 := src.SetLine(x, INVALID_LINE);
    var s1 := s0.SetLine(y, INVALID_LINE);
    SetLineOnly(src, x, y, z, INVALID_LINE);
    SetLineOnly(s0, y, x, z, INVALID_LINE);
    SetEqOnly(s1, x, y, z, false);
    EqSymmetric(s0, x, y, z);
    EqSymmetric(s1, x, y, z);
  }

  // ----- what a move does to the meaning of the flags

  lemma MatchingJustified(dest: Diff3Line, src: Diff3Line, keys: Keys, x: Selector, y: Selector, z: Selector)
    requires Three(x, y, z) && Justified(dest, keys) && Justified(src, keys) && Closed(src)
    requires !dest.Has(x) && src.Has(x) && dest.Eq(y, z) && TestedTrue(true, keys, x, src.Line(x), y, dest.Line(y))
    ensures Justified(MatchingDest(dest, src, x, y, z), keys)
    ensures Justified(MatchingSrc(src, x, y, z), keys) && Closed(MatchingSrc(src, x, y, z))
    ensures MoveKeeps(dest, src, MatchingDest(dest, src, x, y, z), MatchingSrc(src, x, y, z))
  {
    hide Diff3Line.SetLine, Diff3Line.SetEq, Diff3Line.Line, Diff3Line.Eq, Justified, Exact, Closed, MoveKeeps;
    MatchingRows(dest, src, x, y, z);
    ByPairs(dest, keys, x, y, z);
    ByPairs(src, keys, x, y, z);
    ByPairs(MatchingDest(dest, src, x, y, z), keys, x, y, z);
    ByPairs(MatchingSrc(src, x, y, z), keys, x, y, z);
    MoveKeepsBy(dest, src, MatchingDest(dest, src, x, y, z), MatchingSrc(src, x, y, z), x, y, z);
  }

  lemma MatchingExact(dest: Diff3Line, src: Diff3Line, keys: Keys, x: Selector, y: Selector, z: Selector)
    requires Three(x, y, z) && Exact(dest, keys) && Exact(src, keys)
    requires !dest.Has(x) && src.Has(x) && dest.Eq(y, z) && TestedTrue(true, keys, x, src.Line(x), y, dest.Line(y))
    ensures Exact(MatchingDest(dest, src, x, y, z), keys) && Exact(MatchingSrc(src, x, y, z), keys)
  {
    hide Diff3Line.SetLine, Diff3Line.SetEq, Diff3Line.Line, Diff3Line.Eq, Justified, Exact, Closed;
    MatchingRows(dest, src, x, y, z);
    ByPairs(dest, keys, x, y, z);
    ByPairs(src, keys, x, y, z);
    ByPairs(MatchingDest(dest, src, x, y, z), keys, x, y, z);
    ByPairs(MatchingSrc(src, x, y, z), keys, x, y, z);
  }

  lemma UnmatchedJustified(dest: Diff3Line, src: Diff3Line, keys: Keys, x: Selector, y: Selector, z: Selector,
                           sameY: bool, sameZ: bool)
    requires Three(x, y, z) && Justified(dest, keys) && Justified(src, keys) && Closed(src)
    requires !dest.Has(x) && src.Has(x) && !src.Eq(x, y) && !src.Eq(x, z)
    requires dest.Has(y) ==> TestedTrue(sameY, keys, x, src.Line(x), y, dest.Line(y))
    requires dest.Has(z) ==> TestedTrue(sameZ, keys, x, src.Line(x), z, dest.Line(z))
    ensures Justified(UnmatchedDest(dest, src, x, y, z, sameY, sameZ), keys)
    ensures Justified(UnmatchedSrc(src, x), keys) && Closed(UnmatchedSrc(src, x))
    ensures MoveKeeps(dest, src, UnmatchedDest(dest, src, x, y, z, sameY, sameZ), UnmatchedSrc(src, x))
  {
    hide Diff3Line.SetLine, Diff3Line.SetEq, Diff3Line.Line, Diff3Line.Eq, Justified, Exact, Closed, MoveKeeps;
    UnmatchedRows(dest, src, x, y, z, sameY, sameZ);
    ByPairs(dest, keys, x, y, z);
    ByPairs(src, keys, x, y, z);
    ByPairs(UnmatchedDest(dest, src, x, y, z, sameY, sameZ), keys, x, y, z);
    ByPairs(UnmatchedSrc(src, x), keys, x, y, z);
    MoveKeepsBy(dest, src, UnmatchedDest(dest, src, x, y, z, sameY, sameZ), UnmatchedSrc(src, x), x, y, z);
  }

  lemma UnmatchedExact(dest: Diff3Line, src: Diff3Line, keys: Keys, x: Selector, y: Selector, z: Selector, sameY: bool,
                       sameZ: bool)
    requires Three(x, y, z) && Exact(dest, keys) && Exact(src, keys) && RowInFiles(dest, keys) && RowInFiles(src, keys)
    requires !dest.Has(x) && src.Has(x) && !src.Eq(x, y) && !src.Eq(x, z)
    requires dest.Has(y) ==> Tested(sameY, keys, x, src.Line(x), y, dest.Line(y))
    requires dest.Has(z) ==> Tested(sameZ, keys, x, src.Line(x), z, dest.Line(z))
    ensures Exact(UnmatchedDest(dest, src, x, y, z, sameY, sameZ), keys) && Exact(UnmatchedSrc(src, x), keys)
  {
    hide Diff3Line.SetLine, Diff3Line.SetEq, Diff3Line.Line, Diff3Line.Eq, Justified, Exact, Closed;
    UnmatchedRows(dest, src, x, y, z, sameY, sameZ);
    ByPairs(dest, keys, x, y, z);
    ByPairs(src, keys, x, y, z);
    ByPairs(UnmatchedDest(dest, src, x, y, z, sameY, sameZ), keys, x, y, z);
    ByPairs(UnmatchedSrc(src, x), keys, x, y, z);
  }

  lemma PairJustified(dest: Diff3Line, src: Diff3Line, keys: Keys, x: Selector, y: Selector, z: Selector, sameZ: bool)
    requires Three(x, y, z) && Justified(dest, keys) && Justified(src, keys) && Closed(src)
    requires !dest.Has(x) && !dest.Has(y) && src.Has(x) && src.Eq(x, y) && (!src.Eq(x, z) || !src.Eq(y, z))
    requires dest.Has(z) ==> TestedTrue(sameZ, keys, x, src.Line(x), z, dest.Line(z))
    ensures Justified(PairDest(dest, src, x, y, z, sameZ), keys)
    ensures Justified(PairSrc(src, x, y), keys) && Closed(PairSrc(src, x, y))
    ensures MoveKeeps(dest, src, PairDest(dest, src, x, y, z, sameZ), PairSrc(src, x, y))
  {
    hide Diff3Line.SetLine, Diff3Line.SetEq, Diff3Line.Line, Diff3Line.Eq, Justified, Exact, Closed, MoveKeeps;
    PairRows(dest, src, x, y, z, sameZ);
    ByPairs(dest, keys, x, y, z);
    ByPairs(src, keys, x, y, z);
    ByPairs(PairDest(dest, src, x, y, z, sameZ), keys, x, y, z);
    ByPairs(PairSrc(src, x, y), keys, x, y, z);
    MoveKeepsBy(dest, src, PairDest(dest, src, x, y, z, sameZ), PairSrc(src, x, y), x, y, z);
  }

  lemma PairExact(dest: Diff3Line, src: Diff3Line, keys: Keys, x: Selector, y: Selector, z: Selector, sameZ: bool)
    requires Three(x, y, z) && Exact(dest, keys) && Exact(src, keys) && RowInFiles(dest, keys) && RowInFiles(src, keys)
    requires !dest.Has(x) && !dest.Has(y) && src.Has(x) && src.Eq(x, y) && (!src.Eq(x, z) || !src.Eq(y, z))
    requires dest.Has(z) ==> Tested(sameZ, keys, x, src.Line(x), z, dest.Line(z))
    ensures Exact(PairDest(dest, src, x, y, z, sameZ), keys) && Exact(PairSrc(src, x, y), keys)
  {
    hide Diff3Line.SetLine, Diff3Line.SetEq, Diff3Line.Line, Diff3Line.Eq, Justified, Exact, Closed;
    PairRows(dest, src, x, y, z, sameZ);
    ByPairs(dest, keys, x, y, z);
    ByPairs(src, keys, x, y, z);
    ByPairs(PairDest(dest, src, x, y, z, sameZ), keys, x, y, z);
    ByPairs(PairSrc(src, x, y), keys, x, y, z);
  }
}
