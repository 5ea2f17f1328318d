/**
  How many rows show two inputs as equal.  The lists of differences fix the number; no move of the
  compacting pass lowers it.
 */
module Pairs {
  import opened Alignment
  import opened Lines
  import opened DiffLists
  import opened ManualDiffHelp
  import opened Diff3Lines
  import opened RowEdits

  function Bit(b: bool): int { if b then 1 else 0 }

  /** The number of rows in which the lines of two inputs are flagged equal. */
  ghost function PairCount(rows: seq<Diff3Line>, v: Selector, w: Selector): int {
    if |rows| == 0 then 0 else PairCount(rows[..|rows| - 1], v, w) + Bit(rows[|rows| - 1].Eq(v, w))
  }

  /** No pair of inputs is shown equal in fewer rows. */
  ghost predicate PairsKept(before: seq<Diff3Line>, after: seq<Diff3Line>) {
    && PairCount(after, A, B) >= PairCount(before, A, B) && PairCount(after, A, C) >= PairCount(before, A, C)
    && PairCount(after, B, C) >= PairCount(before, B, C)
  }

  /** Two rows show each pair at least as often as two others. */
  predicate RowsKeep(dest: Diff3Line, src: Diff3Line, d: Diff3Line, s: Diff3Line, v: Selector, w: Selector) {
    Bit(d.Eq(v, w)) + Bit(s.Eq(v, w)) >= Bit(dest.Eq(v, w)) + Bit(src.Eq(v, w))
  }

  predicate MoveKeeps(dest: Diff3Line, src: Diff3Line, d: Diff3Line, s: Diff3Line) {
    RowsKeep(dest, src, d, s, A, B) && RowsKeep(dest, src, d, s, A, C) && RowsKeep(dest, src, d, s, B, C)
  }

  lemma MoveKeepsBy(dest: Diff3Line, src: Diff3Line, d: Diff3Line, s: Diff3Line, x: Selector, y: Selector, z: Selector)
    requires Three(x, y, z)
    requires RowsKeep(dest, src, d, s, x, y) && RowsKeep(dest, src, d, s, x, z) && RowsKeep(dest, src, d, s, y, z)
    ensures MoveKeeps(dest, src, d, s)
  {
  }

  lemma {:induction false} PairCountUpdate(rows: seq<Diff3Line>, k: int, r: Diff3Line, v: Selector, w: Selector)
    requires 0 <= k < |rows|
    ensures PairCount(rows[k := r], v, w) == PairCount(rows, v, w) - Bit(rows[k].Eq(v, w)) + Bit(r.Eq(v, w))
    decreases |rows|
  {
    hide Diff3Line.Eq;
    var m := |rows| - 1;
    if k == m {
      assert rows[k := r][..m] == rows[..m];
    } else {
      assert rows[k := r][..m] == rows[..m][k := r];
      PairCountUpdate(rows[..m], k, r, v, w);
    }
  }

  lemma MoveKeepsPairs(before: seq<Diff3Line>, to: int, line: int, d: Diff3Line, s: Diff3Line)
    requires 0 <= to < line < |before| && MoveKeeps(before[to], before[line], d, s)
    ensures PairsKept(before, before[to := d][line := s])
  {
    hide Diff3Line.Eq, PairCount;
    MoveKeepsPair(before, to, line, d, s, A, B);
    MoveKeepsPair(before, to, line, d, s, A, C);
    MoveKeepsPair(before, to, line, d, s, B, C);
  }

  lemma MoveKeepsPair(before: seq<Diff3Line>, to: int, line: int, d: Diff3Line, s: Diff3Line, v: Selector, w: Selector)
    requires 0 <= to < line < |before| && RowsKeep(before[to], before[line], d, s, v, w)
    ensures PairCount(before[to := d][line := s], v, w) >= PairCount(before, v, w)
  {
    hide Diff3Line.Eq, PairCount;
    PairCountUpdate(before, to, d, v, w);
    PairCountUpdate(before[to := d], line, s, v, w);
  }

  /** Rows that are removed show nothing equal. */
  lemma PairsKeptRest(rows: seq<Diff3Line>)
    ensures PairsKept(rows, RemoveEmpty(rows))
  {
    PairCountRest(rows, A, B);
    PairCountRest(rows, A, C);
    PairCountRest(rows, B, C);
  }

  lemma {:induction false} PairCountConcat(rows: seq<Diff3Line>, more: seq<Diff3Line>, v: Selector, w: Selector)
    ensures PairCount(rows + more, v, w) == PairCount(rows, v, w) + PairCount(more, v, w)
    decreases |more|
  {
    hide Diff3Line.Eq;
    if |more| == 0 {
      assert rows + more == rows;
    } else {
      var m := |more| - 1;
      assert (rows + more)[..|rows| + m] == rows + more[..m];
      PairCountConcat(rows, more[..m], v, w);
    }
  }

  lemma {:induction false} PairCountRest(rows: seq<Diff3Line>, v: Selector, w: Selector)
    ensures PairCount(RemoveEmpty(rows), v, w) == PairCount(rows, v, w)
  {
    if |rows| > 0 {
      assert rows == [rows[0]] + rows[1..];
      PairCountConcat([rows[0]], rows[1..], v, w);
      PairCountRest(rows[1..], v, w);
      if rows[0].Same(NEW_ROW) {
        assert [rows[0]][..0] == [] && [] + RemoveEmpty(rows[1..]) == RemoveEmpty(rows[1..]);
        assert !rows[0].Eq(v, w);
      } else {
        PairCountConcat([rows[0]], RemoveEmpty(rows[1..]), v, w);
      }
    }
  }

  // ----- the number that the lists of differences fix

  /** Each line with a counterpart makes one row that shows the pair. */
  lemma {:induction false} PairCountTold(rows: seq<Diff3Line>, v: Selector, w: Selector, mv: seq<bool>, mw: seq<bool>,
                                         n: int)
    requires v in {A, B, C} && 0 <= n <= |mv| && LinesOf(rows, v) == Numbers(0, n) && AllTold(rows, v, w, mv, mw)
    ensures PairCount(rows, v, w) == n - Marked(mv[..n])
    decreases |rows|
  {
    hide LinesOf, Diff3Line.Eq, Diff3Line.Line, Marked;
    if |rows| == 0 {
      LinesOfNothing(v);
      MarkedNothing();
    } else {
      var m, r := |rows| - 1, rows[|rows| - 1];
      assert rows == rows[..m] + [r];
      LinesOfConcat(rows[..m], [r], v);
      LinesOfOne(r, v);
      assert Told(r, v, w, mv, mw);
      if r.Has(v) {
        LastNumber(LinesOf(rows[..m], v), r.Line(v), n);
        MarkedSnoc(mv, n - 1);
        PairCountTold(rows[..m], v, w, mv, mw, n - 1);
      } else {
        PairCountTold(rows[..m], v, w, mv, mw, n);
      }
    }
  }

  lemma LinesOfNothing(v: Selector)
    ensures LinesOf([], v) == []
  {
  }

  lemma MarkedNothing()
    ensures Marked([]) == 0
  {
  }

  lemma LastNumber(s: seq<int>, l: int, n: int)
    requires s + [l] == Numbers(0, n)
    ensures n > 0 && l == n - 1 && s == Numbers(0, n - 1)
  {
    var t := s + [l];
    assert |t| == n && t[n - 1] == l;
    forall k | 0 <= k < n - 1
      ensures s[k] == k
    {
      assert t[k] == s[k];
    }
  }

  lemma MarkedSnoc(m: seq<bool>, k: int)
    requires 0 <= k < |m|
    ensures Marked(m[..k + 1]) == Marked(m[..k]) + Bit(m[k])
  {
    var s := m[..k + 1];
    MarkedJoin(s, 0, k, k + 1);
    assert s[0..k] == m[..k] && s[0..k + 1] == s && s[k..k + 1] == [m[k]];
    assert [m[k]][1..] == [];
  }

  /** What is marked in the first file and what is in the second are together the lines without counterpart. */
  lemma {:induction false} MarksCount(dl: seq<Diff>)
    requires Sane(dl)
    ensures |Marks1(dl)| - Marked(Marks1(dl)) == |Marks2(dl)| - Marked(Marks2(dl))
    ensures Marked(Marks1(dl)) + Marked(Marks2(dl)) == Unpaired(dl)
  {
    if |dl| == 0 {
      MarkedNothing();
    } else {
      hide Marked;
      var d := dl[0];
      MarksCount(dl[1..]);
      PieceMarked(d.equals, d.diff1, Marks1(dl[1..]));
      PieceMarked(d.equals, d.diff2, Marks2(dl[1..]));
    }
  }

  lemma PieceMarked(n: int, m: int, rest: seq<bool>)
    requires 0 <= n && 0 <= m
    ensures Marked(Repeat(false, n) + Repeat(true, m) + rest) == m + Marked(rest)
  {
    hide Marked;
    var c := Repeat(false, n) + Repeat(true, m) + rest;
    MarkedJoin(c, 0, n, n + m);
    MarkedJoin(c, 0, n + m, |c|);
    assert c[0..n] == Repeat(false, n) && c[n..n + m] == Repeat(true, m) && c[n + m..|c|] == rest && c[0..|c|] == c;
    NoneMarked(c[0..n], c[0..n]);
    AllMarked(c[n..n + m], c[n..n + m]);
  }

  /** Twice the rows that show the pair are the lines of both inputs that have a counterpart. */
  lemma PairsFixed(rows: seq<Diff3Line>, v: Selector, w: Selector, dl: seq<Diff>, n: int)
    requires v in {A, B, C} && Sane(dl) && Total1(dl) == n && Complete(rows, v, n)
    requires AllTold(rows, v, w, Marks1(dl), Marks2(dl))
    ensures 2 * PairCount(rows, v, w) == Total1(dl) + Total2(dl) - Unpaired(dl)
  {
    hide LinesOf, Marked, Marks1, Marks2, Total1, Total2, Unpaired, PairCount, AllTold;
    MarksLength(dl);
    MarksCount(dl);
    PairCountTold(rows, v, w, Marks1(dl), Marks2(dl), n);
    assert Marks1(dl)[..n] == Marks1(dl);
  }
}
