/**
  Rows of the three-way alignment (`Diff3Line`): each row names at most one line of every input and
  carries flags for pairs of lines that are equal.
 */
module Diff3Lines {
  import opened Lines
  import opened DiffLists
  import opened ManualDiffHelp

  datatype Diff3Line = Diff3Line(lineA: int, lineB: int, lineC: int, bAEqB: bool, bAEqC: bool, bBEqC: bool,
                                 bWhiteLineA: bool, bWhiteLineB: bool, bWhiteLineC: bool,
                                 fineAB: Option<seq<Diff>>, fineBC: Option<seq<Diff>>, fineCA: Option<seq<Diff>>) {
    function Line(w: Selector): int {
      if w == A then lineA else if w == B then lineB else if w == C then lineC else INVALID_LINE
    }

    predicate Has(w: Selector) { IsLine(Line(w)) }

    function SetLine(w: Selector, l: int): Diff3Line {
      if w == A then this.(lineA := l) else if w == B then this.(lineB := l)
      else if w == C then this.(lineC := l) else this
    }

    /** The equality flag of a pair of inputs. */
    predicate Eq(v: Selector, w: Selector) {
      if Pair(v, w, A, B) then bAEqB else if Pair(v, w, A, C) then bAEqC else if Pair(v, w, B, C) then bBEqC else false
    }

    function SetEq(v: Selector, w: Selector, e: bool): Diff3Line {
      if Pair(v, w, A, B) then this.(bAEqB := e)
      else if Pair(v, w, A, C) then this.(bAEqC := e)
      else if Pair(v, w, B, C) then this.(bBEqC := e)
      else this
    }

    /** Equality of rows ignores the fine differences. */
    predicate Same(r: Diff3Line) {
      && lineA == r.lineA && lineB == r.lineB && lineC == r.lineC
      && bAEqB == r.bAEqB && bAEqC == r.bAEqC && bBEqC == r.bBEqC
      && bWhiteLineA == r.bWhiteLineA && bWhiteLineB == r.bWhiteLineB && bWhiteLineC == r.bWhiteLineC
    }
  }

  predicate Pair(v: Selector, w: Selector, x: Selector, y: Selector) { (v == x && w == y) || (v == y && w == x) }

  const NEW_ROW := Diff3Line(INVALID_LINE, INVALID_LINE, INVALID_LINE, false, false, false, false, false, false,
                             Option.None, Option.None, Option.None)

  /** Three different inputs, in any order. */
  ghost predicate Three(x: Selector, y: Selector, z: Selector) {
    x in {A, B, C} && y in {A, B, C} && z in {A, B, C} && x != y && y != z && x != z
  }

  // ----- the lines of one input

  ghost function Column(rows: seq<Diff3Line>, w: Selector): (c: seq<int>)
    ensures |c| == |rows| && forall k :: 0 <= k < |rows| ==> c[k] == rows[k].Line(w)
  {
    seq(|rows|, k requires 0 <= k < |rows| => rows[k].Line(w))
  }

  ghost function Present(c: seq<int>): seq<int> {
    if |c| == 0 then [] else (if IsLine(c[0]) then [c[0]] else []) + Present(c[1..])
  }

  /** The lines of one input, in the order of the rows. */
  ghost function LinesOf(rows: seq<Diff3Line>, w: Selector): seq<int> { Present(Column(rows, w)) }

  /** The line numbers from m up to, not including, n. */
  ghost function Numbers(m: int, n: int): (s: seq<int>)
    ensures |s| == if m <= n then n - m else 0
    ensures forall k :: 0 <= k < |s| ==> s[k] == m + k
  {
    if m <= n then seq(n - m, k => m + k) else []
  }

  lemma {:induction false} PresentConcat(c: seq<int>, d: seq<int>)
    ensures Present(c + d) == Present(c) + Present(d)
  {
    if |c| == 0 {
      assert c + d == d;
    } else {
      hide Present;
      PresentConcat(c[1..], d);
      var e := c + d;
      assert e[0] == c[0] && e[1..] == c[1..] + d;
      PresentHead(c);
      PresentHead(e);
    }
  }

  lemma PresentHead(c: seq<int>)
    requires |c| > 0
    ensures Present(c) == (if IsLine(c[0]) then [c[0]] else []) + Present(c[1..])
  {
  }

  lemma {:induction false} PresentNone(c: seq<int>)
    requires forall k :: 0 <= k < |c| ==> !IsLine(c[k])
    ensures Present(c) == []
  {
    if |c| > 0 {
      PresentNone(c[1..]);
    }
  }

  lemma {:induction false} PresentAll(c: seq<int>)
    requires forall k :: 0 <= k < |c| ==> IsLine(c[k])
    ensures Present(c) == c
  {
    if |c| > 0 {
      PresentAll(c[1..]);
    }
  }

  lemma LinesOfConcat(r: seq<Diff3Line>, s: seq<Diff3Line>, w: Selector)
    ensures LinesOf(r + s, w) == LinesOf(r, w) + LinesOf(s, w)
  {
    assert Column(r + s, w) == Column(r, w) + Column(s, w);
    PresentConcat(Column(r, w), Column(s, w));
  }

  lemma PresentOne(l: int)
    ensures Present([l]) == if IsLine(l) then [l] else []
  {
    assert [l][1..] == [];
  }

  lemma LinesOfOne(r: Diff3Line, w: Selector)
    ensures LinesOf([r], w) == if r.Has(w) then [r.Line(w)] else []
  {
    PresentOne(r.Line(w));
    assert Column([r], w) == [r.Line(w)];
  }

  lemma SameColumn(r: seq<Diff3Line>, s: seq<Diff3Line>, w: Selector)
    requires |r| == |s| && forall k :: 0 <= k < |r| ==> r[k].Line(w) == s[k].Line(w)
    ensures LinesOf(r, w) == LinesOf(s, w)
  {
    assert Column(r, w) == Column(s, w);
  }

  /** Moving a line up over rows that have no line of this input changes nothing. */
  lemma PresentMove(c: seq<int>, to: int, from: int)
    requires 0 <= to < from < |c| && forall k :: to <= k < from ==> !IsLine(c[k])
    ensures Present(c[to := c[from]][from := INVALID_LINE]) == Present(c)
  {
    var d := c[to := c[from]][from := INVALID_LINE];
    assert c == c[..to] + (c[to..from] + ([c[from]] + c[from + 1..]));
    assert d == c[..to] + ([c[from]] + (d[to + 1..from + 1] + c[from + 1..]));
    PresentNone(c[to..from]);
    PresentNone(d[to + 1..from + 1]);
    PresentConcat(c[..to], c[to..from] + ([c[from]] + c[from + 1..]));
    PresentConcat(c[to..from], [c[from]] + c[from + 1..]);
    PresentConcat(c[..to], [c[from]] + (d[to + 1..from + 1] + c[from + 1..]));
    PresentConcat([c[from]], d[to + 1..from + 1] + c[from + 1..]);
    PresentConcat([c[from]], c[from + 1..]);
    PresentConcat(d[to + 1..from + 1], c[from + 1..]);
  }

  // ----- what the flags mean

  /** The lines of the three inputs, reduced to what has to agree for two lines to count as equal. */
  datatype Keys = Keys(a: seq<Line>, b: seq<Line>, c: seq<Line>) {
    function Of(w: Selector): seq<Line> { if w == A then a else if w == B then b else c }
  }

  ghost predicate InFile(r: Diff3Line, w: Selector, n: int) {
    r.Has(w) ==> 0 <= r.Line(w) < n
  }

  ghost predicate RowInFiles(r: Diff3Line, keys: Keys) {
    InFile(r, A, |keys.a|) && InFile(r, B, |keys.b|) && InFile(r, C, |keys.c|)
  }

  ghost predicate InFiles(rows: seq<Diff3Line>, keys: Keys) {
    forall k :: 0 <= k < |rows| ==> RowInFiles(rows[k], keys)
  }

  /** Both lines are there and agree. */
  ghost predicate Agree(r: Diff3Line, keys: Keys, v: Selector, w: Selector) {
    && r.Has(v) && r.Has(w)
    && 0 <= r.Line(v) < |keys.Of(v)| && 0 <= r.Line(w) < |keys.Of(w)|
    && keys.Of(v)[r.Line(v)] == keys.Of(w)[r.Line(w)]
  }

  /** A flag is set only for lines that agree. */
  ghost predicate Justified(r: Diff3Line, keys: Keys) {
    && (r.bAEqB ==> Agree(r, keys, A, B))
    && (r.bAEqC ==> Agree(r, keys, A, C))
    && (r.bBEqC ==> Agree(r, keys, B, C))
  }

  /** The same for one pair of inputs, in either order. */
  ghost predicate JustifiedPair(r: Diff3Line, keys: Keys, v: Selector, w: Selector) {
    r.Eq(v, w) ==> Agree(r, keys, v, w)
  }

  ghost predicate ExactPair(r: Diff3Line, keys: Keys, v: Selector, w: Selector) {
    r.Eq(v, w) <==> Agree(r, keys, v, w)
  }

  lemma ByPairs(r: Diff3Line, keys: Keys, x: Selector, y: Selector, z: Selector)
    requires Three(x, y, z)
    ensures Justified(r, keys) <==>
              JustifiedPair(r, keys, x, y) && JustifiedPair(r, keys, x, z) && JustifiedPair(r, keys, y, z)
    ensures Exact(r, keys) <==> ExactPair(r, keys, x, y) && ExactPair(r, keys, x, z) && ExactPair(r, keys, y, z)
    ensures Closed(r) <==> ClosedBy(r.Eq(x, y), r.Eq(x, z), r.Eq(y, z))
  {
  }

  predicate ClosedBy(p: bool, q: bool, s: bool) {
    (p && q ==> s) && (p && s ==> q) && (q && s ==> p)
  }

  /** Setting a line touches no other line and no flag; setting a flag touches no line and no other flag. */
  lemma SetLineOnly(r: Diff3Line, x: Selector, y: Selector, z: Selector, l: int)
    requires Three(x, y, z)
    ensures var s := r.SetLine(x, l);
            && s.Line(x) == l && s.Line(y) == r.Line(y) && s.Line(z) == r.Line(z)
            && s.Eq(x, y) == r.Eq(x, y) && s.Eq(x, z) == r.Eq(x, z) && s.Eq(y, z) == r.Eq(y, z)
  {
  }

  lemma SetEqOnly(r: Diff3Line, x: Selector, y: Selector, z: Selector, e: bool)
    requires Three(x, y, z)
    ensures var s := r.SetEq(x, y, e);
            && s.Line(x) == r.Line(x) && s.Line(y) == r.Line(y) && s.Line(z) == r.Line(z)
            && s.Eq(x, y) == s.Eq(y, x) == e && s.Eq(x, z) == r.Eq(x, z) && s.Eq(y, z) == r.Eq(y, z)
  {
  }

  /** A flag is set exactly for lines that agree. */
  ghost predicate Exact(r: Diff3Line, keys: Keys) {
    && (r.bAEqB <==> Agree(r, keys, A, B))
    && (r.bAEqC <==> Agree(r, keys, A, C))
    && (r.bBEqC <==> Agree(r, keys, B, C))
  }

  /** No two flags without the third. */
  predicate Closed(r: Diff3Line) {
    && (r.bAEqB && r.bAEqC ==> r.bBEqC) && (r.bAEqB && r.bBEqC ==> r.bAEqC) && (r.bAEqC && r.bBEqC ==> r.bAEqB)
  }

  ghost predicate AllJustified(rows: seq<Diff3Line>, keys: Keys) {
    forall k :: 0 <= k < |rows| ==> Justified(rows[k], keys)
  }

  ghost predicate AllExact(rows: seq<Diff3Line>, keys: Keys) {
    forall k :: 0 <= k < |rows| ==> Exact(rows[k], keys)
  }

  ghost predicate AllClosed(rows: seq<Diff3Line>, from: int) {
    0 <= from && forall k :: from <= k < |rows| ==> Closed(rows[k])
  }

  /** Nothing is known yet about the texts of the row: neither white lines nor fine differences. */
  predicate Bare(r: Diff3Line) {
    !r.bWhiteLineA && !r.bWhiteLineB && !r.bWhiteLineC && r.fineAB.None? && r.fineBC.None? && r.fineCA.None?
  }

  lemma ExactIsJustified(r: Diff3Line, keys: Keys)
    requires Exact(r, keys)
    ensures Justified(r, keys) && Closed(r)
  {
  }

  ghost predicate AllBare(rows: seq<Diff3Line>) {
    forall k :: 0 <= k < |rows| ==> Bare(rows[k])
  }

  /** Flags are justified everywhere; the rows not yet passed never have two flags without the third. */
  ghost predicate WellFlagged(rows: seq<Diff3Line>, keys: Keys, line: int) {
    AllJustified(rows, keys) && AllClosed(rows, line)
  }

  /** No row of [from, upTo) has a line of this input. */
  ghost predicate Room(rows: seq<Diff3Line>, w: Selector, from: int, upTo: int) {
    0 <= from <= upTo <= |rows| && forall k :: from <= k < upTo ==> !rows[k].Has(w)
  }

  // ----- one line goes up

  lemma MovedColumn(before: seq<Diff3Line>, after: seq<Diff3Line>, x: Selector, to: int, line: int)
    requires |after| == |before| && 0 <= to < line < |before| && Room(before, x, to, line)
    requires forall k :: 0 <= k < |before| && k != to && k != line ==> after[k] == before[k]
    requires after[to].Line(x) == before[line].Line(x) && after[line].Line(x) == INVALID_LINE
    ensures LinesOf(after, x) == LinesOf(before, x)
    ensures Room(after, x, to + 1, line + 1)
  {
    hide Diff3Line.Line, Present;
    var c := Column(before, x);
    assert Column(after, x) == c[to := c[line]][line := INVALID_LINE];
    forall k | to <= k < line
      ensures !IsLine(c[k])
    {
      assert !before[k].Has(x);
    }
    PresentMove(c, to, line);
  }

  lemma KeptColumn(before: seq<Diff3Line>, after: seq<Diff3Line>, w: Selector, to: int, line: int)
    requires |after| == |before| && 0 <= to < line < |before|
    requires forall k :: 0 <= k < |before| && k != to && k != line ==> after[k] == before[k]
    requires after[to].Line(w) == before[to].Line(w) && after[line].Line(w) == before[line].Line(w)
    ensures LinesOf(after, w) == LinesOf(before, w)
    ensures forall p, q :: Room(before, w, p, q) ==> Room(after, w, p, q)
  {
    hide Diff3Line.Line;
    SameColumn(before, after, w);
    forall p, q | Room(before, w, p, q)
      ensures Room(after, w, p, q)
    {
      forall k | p <= k < q
        ensures !after[k].Has(w)
      {
        assert !before[k].Has(w);
      }
    }
  }

  // ----- the keys

  /** The essences of the lines, which the differ compares. */
  ghost function Essences(o: Options, texts: Keys): Keys {
    Keys(EssencesOf(o, texts.a), EssencesOf(o, texts.b), EssencesOf(o, texts.c))
  }

  /** What the aligner compares; each input has its own mark for empty lines, so they equal nothing. */
  ghost function Blanks(texts: Keys): Keys {
    Keys(AlignerKeys(texts.a, 9), AlignerKeys(texts.b, 10), AlignerKeys(texts.c, 11))
  }

  /** Keys of different inputs agree exactly for lines that are equal for the aligner. */
  lemma BlanksTellEquality(texts: Keys, v: Selector, i: int, w: Selector, j: int)
    requires v in {A, B, C} && w in {A, B, C} && v != w && 0 <= i < |texts.Of(v)| && 0 <= j < |texts.Of(w)|
    ensures Blanks(texts).Of(v)[i] == Blanks(texts).Of(w)[j] <==> AlignerEqual(texts.Of(v)[i], texts.Of(w)[j])
  {
    hide AlignerEqual, AlignerKey;
    KeysTellEquality(texts.Of(v)[i], texts.Of(w)[j], Mark(v), Mark(w));
  }

  function Mark(w: Selector): Unit { if w == A then 9 else if w == B then 10 else 11 }

  /** The two lines of a row are there and equal for the aligner. */
  ghost predicate EqualLines(r: Diff3Line, texts: Keys, v: Selector, w: Selector) {
    && r.Has(v) && r.Has(w)
    && 0 <= r.Line(v) < |texts.Of(v)| && 0 <= r.Line(w) < |texts.Of(w)|
    && AlignerEqual(texts.Of(v)[r.Line(v)], texts.Of(w)[r.Line(w)])
  }

  /** So exact flags say which lines are equal for the aligner. */
  lemma ExactMeansEqual(r: Diff3Line, texts: Keys)
    ensures Exact(r, Blanks(texts)) <==>
              && (r.bAEqB <==> EqualLines(r, texts, A, B)) && (r.bAEqC <==> EqualLines(r, texts, A, C))
              && (r.bBEqC <==> EqualLines(r, texts, B, C))
  {
    AgreeMeansEqual(r, texts, A, B);
    AgreeMeansEqual(r, texts, A, C);
    AgreeMeansEqual(r, texts, B, C);
  }

  lemma AgreeMeansEqual(r: Diff3Line, texts: Keys, v: Selector, w: Selector)
    requires v in {A, B, C} && w in {A, B, C} && v != w
    ensures Agree(r, Blanks(texts), v, w) <==> EqualLines(r, texts, v, w)
  {
    hide AlignerEqual, AlignerKey;
    if r.Has(v) && r.Has(w) && 0 <= r.Line(v) < |texts.Of(v)| && 0 <= r.Line(w) < |texts.Of(w)| {
      BlanksTellEquality(texts, v, r.Line(v), w, r.Line(w));
    }
  }

  // ----- empty rows

  /** Removing the rows that equal a new row. */
  function RemoveEmpty(rows: seq<Diff3Line>): seq<Diff3Line> {
    if |rows| == 0 then [] else (if rows[0].Same(NEW_ROW) then [] else [rows[0]]) + RemoveEmpty(rows[1..])
  }

  lemma {:induction false} RemoveEmptyKeeps(rows: seq<Diff3Line>, w: Selector)
    ensures LinesOf(RemoveEmpty(rows), w) == LinesOf(rows, w)
  {
    if |rows| > 0 {
      RemoveEmptyKeeps(rows[1..], w);
      assert rows == [rows[0]] + rows[1..];
      LinesOfConcat([rows[0]], rows[1..], w);
      LinesOfOne(rows[0], w);
      var head := if rows[0].Same(NEW_ROW) then [] else [rows[0]];
      LinesOfConcat(head, RemoveEmpty(rows[1..]), w);
    }
  }

  /** The remaining rows are rows of the list, none of them empty. */
  lemma {:induction false} RemoveEmptySubset(rows: seq<Diff3Line>)
    ensures forall k :: 0 <= k < |RemoveEmpty(rows)| ==>
              RemoveEmpty(rows)[k] in rows && !RemoveEmpty(rows)[k].Same(NEW_ROW)
    ensures |RemoveEmpty(rows)| <= |rows|
  {
    if |rows| > 0 {
      RemoveEmptySubset(rows[1..]);
    }
  }
}
