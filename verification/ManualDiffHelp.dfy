/**
  Manual alignment: ranges of lines of the inputs that the user wants to see side by side
  (`ManualDiffHelpEntry`, `ManualDiffHelpList`).
 */
module ManualDiffHelp {
  import opened EditDistance
  import opened Alignment
  import opened Lines
  import opened LineCoder
  import opened DiffLists
  import opened Windows
  import Frontier

  /** Which input something belongs to (`e_SrcSelector`). */
  datatype Selector = Invalid | None | A | B | C

  function NextSelector(s: Selector): Selector {
    match s
    case None => A
    case A => B
    case B => C
    case _ => Invalid
  }

  /** A line number that is not there. */
  const INVALID_LINE: int := -1

  function IsLine(l: int): bool { l != INVALID_LINE }

  /** First and last line of a range in each of the three inputs; lines may be missing. */
  datatype Entry = Entry(lineA1: int, lineA2: int, lineB1: int, lineB2: int, lineC1: int, lineC2: int) {
    function Line1(w: Selector): int { if w == A then lineA1 else if w == B then lineB1 else lineC1 }

    function Line2(w: Selector): int { if w == A then lineA2 else if w == B then lineB2 else lineC2 }

    /** A move may not bring two lines together that lie on different sides of a range border. */
    predicate ValidMove(line1: int, line2: int, w1: Selector, w2: Selector) {
      IsLine(Line1(w1)) && IsLine(Line1(w2)) ==>
        && !((line1 >= Line1(w1) && line2 < Line1(w2)) || (line1 < Line1(w1) && line2 >= Line1(w2)))
        && !((line1 >= Line2(w1) + 1 && line2 < Line2(w2) + 1) || (line1 < Line2(w1) + 1 && line2 >= Line2(w2) + 1))
    }
  }

  /** `ManualDiffHelpList::isValidMove`. */
  predicate IsValidMove(entries: seq<Entry>, line1: int, line2: int, w1: Selector, w2: Selector) {
    IsLine(line1) && IsLine(line2) ==> forall i :: 0 <= i < |entries| ==> entries[i].ValidMove(line1, line2, w1, w2)
  }

  /** Two lines lie on the same side of both borders of a range. */
  predicate SameSides(e: Entry, line1: int, line2: int, w1: Selector, w2: Selector) {
    IsLine(e.Line1(w1)) && IsLine(e.Line1(w2)) ==>
      && (line1 < e.Line1(w1) <==> line2 < e.Line1(w2))
      && (line1 <= e.Line2(w1) <==> line2 <= e.Line2(w2))
  }

  /** A move is valid exactly if it brings together lines on the same side of all borders. */
  lemma ValidMoveMeansSameSides(entries: seq<Entry>, line1: int, line2: int, w1: Selector, w2: Selector)
    requires IsLine(line1) && IsLine(line2)
    ensures IsValidMove(entries, line1, line2, w1, w2) <==> forall i :: 0 <= i < |entries| ==>
              SameSides(entries[i], line1, line2, w1, w2)
  {
    forall i | 0 <= i < |entries|
      ensures entries[i].ValidMove(line1, line2, w1, w2) <==> SameSides(entries[i], line1, line2, w1, w2)
    {
    }
  }

  // ----- diffing between the borders

  /** The positions at which both inputs are cut, in the order of the entries. */
  ghost function Borders(entries: seq<Entry>, w1: Selector, w2: Selector): seq<(int, int)> {
    if |entries| == 0 then [] else EntryBorders(entries[0], w1, w2) + Borders(entries[1..], w1, w2)
  }

  ghost function EntryBorders(e: Entry, w1: Selector, w2: Selector): seq<(int, int)> {
    if !(IsLine(e.Line1(w1)) && IsLine(e.Line1(w2))) then []
    else if !(IsLine(e.Line2(w1)) && IsLine(e.Line2(w2))) then [(e.Line1(w1), e.Line1(w2))]
    else [(e.Line1(w1), e.Line1(w2)), (e.Line2(w1) + 1, e.Line2(w2) + 1)]
  }

  /** The borders ascend from the given position to the ends of both inputs. */
  ghost predicate Ascending(borders: seq<(int, int)>, p1: int, p2: int, n1: int, n2: int)
    decreases |borders|
  {
    if |borders| == 0 then p1 <= n1 && p2 <= n2
    else p1 <= borders[0].0 && p2 <= borders[0].1 && Ascending(borders[1..], borders[0].0, borders[0].1, n1, n2)
  }

  /** The list can be cut at position (x, y): no entry, and so no equal run, crosses it. */
  ghost predicate CutAt(dl: seq<Diff>, a: seq<Line>, b: seq<Line>, x: int, y: int, q1: int, q2: int) {
    exists k :: 0 <= k <= |dl| && Covers(dl[..k], a, b, 0, 0, x, y) && Covers(dl[k..], a, b, x, y, q1, q2)
  }

  /** The list covers both inputs up to (q1, q2) and can be cut at every border passed. */
  ghost predicate CutAtAll(dl: seq<Diff>, a: seq<Line>, b: seq<Line>, passed: seq<(int, int)>, q1: int, q2: int) {
    && Covers(dl, a, b, 0, 0, q1, q2)
    && forall i :: 0 <= i < |passed| ==> CutAt(dl, a, b, passed[i].0, passed[i].1, q1, q2)
  }

  lemma CutsExtend(dl: seq<Diff>, el: seq<Diff>, a: seq<Line>, b: seq<Line>, passed: seq<(int, int)>, q1: int, q2: int,
                   r1: int, r2: int)
    requires CutAtAll(dl, a, b, passed, q1, q2) && Covers(el, a, b, q1, q2, r1, r2)
    ensures CutAtAll(dl + el, a, b, passed + [(r1, r2)], r1, r2)
    ensures CutAtAll(dl + el, a, b, passed, r1, r2)
  {
    hide Covers;
    var fl, more := dl + el, passed + [(r1, r2)];
    CoversConcat(dl, el, a, b, 0, 0, q1, q2, r1, r2);
    forall i | 0 <= i < |more|
      ensures CutAt(fl, a, b, more[i].0, more[i].1, r1, r2)
    {
      if i < |passed| {
        assert CutAt(dl, a, b, passed[i].0, passed[i].1, q1, q2);
        var k :| 0 <= k <= |dl| && Covers(dl[..k], a, b, 0, 0, passed[i].0, passed[i].1)
          && Covers(dl[k..], a, b, passed[i].0, passed[i].1, q1, q2);
        CoversConcat(dl[k..], el, a, b, passed[i].0, passed[i].1, q1, q2, r1, r2);
        assert fl[..k] == dl[..k] && fl[k..] == dl[k..] + el;
      } else {
        assert fl[..|fl|] == fl && fl[|fl|..] == [];
        CoversNothing(a, b, r1, r2);
      }
    }
    forall i | 0 <= i < |passed|
      ensures CutAt(fl, a, b, passed[i].0, passed[i].1, r1, r2)
    {
      assert more[i] == passed[i];
    }
  }

  lemma CoversNothing(a: seq<Line>, b: seq<Line>, p1: int, p2: int)
    ensures Covers([], a, b, p1, p2, p1, p2)
  {
  }

  /** The settings of the differ, and the size of the coder's hash table. */
  datatype Setup = Setup(o: Options, nbuckets: int, minimal: bool, speedLargeFiles: bool)

  /** The list of one window between two borders, in the coordinates of the whole inputs. */
  method RunWindow(s: Setup, source1: Source, lines1: seq<Line>, source2: Source, lines2: seq<Line>, begin1: int,
                   end1: int, begin2: int, end2: int)
    returns (dl: seq<Diff>)
    requires s.nbuckets > 0 && |lines1| + |lines2| < Frontier.GNULINEREF_MAX
    requires 0 <= begin1 <= end1 <= |lines1| && 0 <= begin2 <= end2 <= |lines2|
    ensures Total1(dl) == end1 - begin1 && Total2(dl) == end2 - begin2
    ensures !(source1 == source2 == NoBuffer) ==>
              Covers(dl, EssencesOf(s.o, lines1), EssencesOf(s.o, lines2), begin1, begin2, end1, end2)
    ensures WindowDone(dl, EssencesOf(s.o, lines1)[begin1..end1], EssencesOf(s.o, lines2)[begin2..end2],
                       Manner(source1, source2, s.minimal, s.speedLargeFiles))
  {
    hide Dist, Essence, Covers, EssencesOf, MadeBy, SameEssence;
    var window1, window2 := lines1[begin1..end1], lines2[begin2..end2];
    var codes1, codes2, equivMax := EncodeBoth(s.o, s.nbuckets, window1, window2);
    dl := RunDiff(source1, codes1, source2, codes2, equivMax, s.minimal, s.speedLargeFiles);
    ghost var a, b := EssencesOf(s.o, lines1), EssencesOf(s.o, lines2);
    if !(source1 == source2 == NoBuffer) {
      CodesAreEssences(s.o, window1, window2, codes1, codes2);
      CoversTransfer(dl, codes1, codes2, EssencesOf(s.o, window1), EssencesOf(s.o, window2), 0, 0, end1 - begin1,
                     end2 - begin2);
      assert EssencesOf(s.o, window1) == a[begin1..end1] && EssencesOf(s.o, window2) == b[begin2..end2];
      CoversShift(dl, a, b, begin1, end1, begin2, end2, 0, 0, end1 - begin1, end2 - begin2);
    }
  }

  /** The codes of two windows tell which of their lines have the same essence. */
  lemma CodesAreEssences(o: Options, ls: seq<Line>, ms: seq<Line>, cs: seq<int>, ds: seq<int>)
    requires |cs| == |ls| && |ds| == |ms|
    requires forall i, j :: 0 <= i < |ls| && 0 <= j < |ms| ==> (cs[i] == ds[j] <==> SameEssence(o, ls[i], ms[j]))
    requires forall i, j :: 0 <= i < |ls| && 0 <= j < |ls| ==> (cs[i] == cs[j] <==> SameEssence(o, ls[i], ls[j]))
    requires forall i, j :: 0 <= i < |ms| && 0 <= j < |ms| ==> (ds[i] == ds[j] <==> SameEssence(o, ms[i], ms[j]))
    ensures CodesFor(EssencesOf(o, ls), EssencesOf(o, ms), cs, ds)
  {
    hide Essence;
  }

  /** What the loop over the borders keeps. */
  ghost predicate Progress(m: Manner, dl: seq<Diff>, a: seq<Line>, b: seq<Line>, passed: seq<(int, int)>,
                           q1: int, q2: int) {
    && Total1(dl) == q1 && Total2(dl) == q2 && LastCut(passed) == (q1, q2)
    && (m.Buffers() ==> CutAtAll(dl, a, b, passed, q1, q2))
    && WindowsDone(dl, a, b, passed, m)
  }

  lemma ProgressExtends(m: Manner, dl: seq<Diff>, el: seq<Diff>, a: seq<Line>, b: seq<Line>,
                        passed: seq<(int, int)>, q1: int, q2: int, r1: int, r2: int)
    requires Progress(m, dl, a, b, passed, q1, q2) && 0 <= q1 <= r1 <= |a| && 0 <= q2 <= r2 <= |b|
    requires Total1(el) == r1 - q1 && Total2(el) == r2 - q2 && (m.Buffers() ==> Covers(el, a, b, q1, q2, r1, r2))
    requires WindowDone(el, a[q1..r1], b[q2..r2], m)
    ensures Progress(m, dl + el, a, b, passed + [(r1, r2)], r1, r2)
  {
    hide CutAtAll, WindowsDone, WindowDone;
    TotalsConcat(dl, el);
    if m.Buffers() {
      CutsExtend(dl, el, a, b, passed, q1, q2, r1, r2);
    }
    WindowsNext(dl, el, a, b, passed, (r1, r2), m);
  }

  /** The windows that end at the borders of one entry. */
  method RunEntry(s: Setup, mdhe: Entry, source1: Source, lines1: seq<Line>, source2: Source, lines2: seq<Line>,
                  w1: Selector, w2: Selector, ghost a: seq<Line>, ghost b: seq<Line>, dl0: seq<Diff>, begin1: int,
                  begin2: int, ghost passed0: seq<(int, int)>, ghost later: seq<(int, int)>)
    returns (dl: seq<Diff>, l1begin: int, l2begin: int, ghost passed: seq<(int, int)>)
    requires s.nbuckets > 0 && |lines1| + |lines2| < Frontier.GNULINEREF_MAX
    requires a == EssencesOf(s.o, lines1) && b == EssencesOf(s.o, lines2)
    requires 0 <= begin1 && 0 <= begin2
    requires Progress(Manner(source1, source2, s.minimal, s.speedLargeFiles), dl0, a, b, passed0, begin1, begin2)
    requires Ascending(EntryBorders(mdhe, w1, w2) + later, begin1, begin2, |a|, |b|)
    ensures passed == passed0 + EntryBorders(mdhe, w1, w2)
    ensures 0 <= l1begin && 0 <= l2begin
    ensures Progress(Manner(source1, source2, s.minimal, s.speedLargeFiles), dl, a, b, passed, l1begin, l2begin)
    ensures Ascending(later, l1begin, l2begin, |a|, |b|)
  {
    hide Covers, Total1, Total2, Progress, Ascending, EssencesOf, WindowDone;
    ghost var m := Manner(source1, source2, s.minimal, s.speedLargeFiles);
    dl, l1begin, l2begin, passed := dl0, begin1, begin2, passed0;
    ghost var borders := EntryBorders(mdhe, w1, w2);
    var l1end, l2end := mdhe.Line1(w1), mdhe.Line1(w2);
    if IsLine(l1end) && IsLine(l2end) {
      NextBorder(borders + later, l1begin, l2begin, |a|, |b|);
      var diffList2 := RunWindow(s, source1, lines1, source2, lines2, l1begin, l1end, l2begin, l2end);
      ProgressExtends(m, dl, diffList2, a, b, passed, l1begin, l2begin, l1end, l2end);
      dl, passed := dl + diffList2, passed + [(l1end, l2end)];
      l1begin, l2begin := l1end, l2end;
      l1end, l2end := mdhe.Line2(w1), mdhe.Line2(w2);
      if IsLine(l1end) && IsLine(l2end) {
        l1end, l2end := l1end + 1, l2end + 1;
        assert (borders + later)[1..] == [(l1end, l2end)] + later;
        NextBorder([(l1end, l2end)] + later, l1begin, l2begin, |a|, |b|);
        diffList2 := RunWindow(s, source1, lines1, source2, lines2, l1begin, l1end, l2begin, l2end);
        ProgressExtends(m, dl, diffList2, a, b, passed, l1begin, l2begin, l1end, l2end);
        dl, passed := dl + diffList2, passed + [(l1end, l2end)];
        l1begin, l2begin := l1end, l2end;
        assert ([(l1end, l2end)] + later)[1..] == later;
      } else {
        assert (borders + later)[1..] == later;
      }
    } else {
      assert [] + later == later && passed0 + [] == passed0;
    }
  }

  /**
    The difference list under manual alignment.  Its totals are the sizes of the inputs, and both
    counters stand on every border together, so no equal run crosses one.
   */
  method RunManualDiff(s: Setup, entries: seq<Entry>, source1: Source, lines1: seq<Line>, source2: Source,
                       lines2: seq<Line>, w1: Selector, w2: Selector)
    returns (dl: seq<Diff>)
    requires s.nbuckets > 0 && |lines1| + |lines2| < Frontier.GNULINEREF_MAX
    requires Ascending(Borders(entries, w1, w2), 0, 0, |lines1|, |lines2|)
    ensures Total1(dl) == |lines1| && Total2(dl) == |lines2|
    ensures !(source1 == source2 == NoBuffer) ==>
              Covers(dl, EssencesOf(s.o, lines1), EssencesOf(s.o, lines2), 0, 0, |lines1|, |lines2|)
    ensures !(source1 == source2 == NoBuffer) ==>
              forall i :: 0 <= i < |Borders(entries, w1, w2)| ==>
                            CutAt(dl, EssencesOf(s.o, lines1), EssencesOf(s.o, lines2),
                                  Borders(entries, w1, w2)[i].0, Borders(entries, w1, w2)[i].1, |lines1|, |lines2|)
    ensures WindowsDone(dl, EssencesOf(s.o, lines1), EssencesOf(s.o, lines2),
                        Borders(entries, w1, w2) + [(|lines1|, |lines2|)],
                        Manner(source1, source2, s.minimal, s.speedLargeFiles))
    ensures source1 == source2 == Text && entries == [] && s.minimal ==>
              forall cx, cy :: Aligned(EssencesOf(s.o, lines1), EssencesOf(s.o, lines2), cx, cy) ==>
                                 Unpaired(dl) <= Marked(cx) + Marked(cy)
    ensures source1 == source2 == Text && entries == [] && EssencesOf(s.o, lines1) == EssencesOf(s.o, lines2) ==>
              Unpaired(dl) == 0
  {
    hide Covers, Total1, Total2, Progress, Borders, Ascending, EssencesOf, WindowDone, WindowsDone, Kept, Marked;
    ghost var a, b := EssencesOf(s.o, lines1), EssencesOf(s.o, lines2);
    ghost var m := Manner(source1, source2, s.minimal, s.speedLargeFiles);
    ghost var passed: seq<(int, int)> := [];
    var l1begin, l2begin := 0, 0;
    dl := [];
    NoProgressYet(m, a, b);
    var i := 0;
    assert entries[0..] == entries;
    while i < |entries|
      invariant 0 <= i <= |entries| && 0 <= l1begin && 0 <= l2begin
      invariant Progress(m, dl, a, b, passed, l1begin, l2begin)
      invariant passed + Borders(entries[i..], w1, w2) == Borders(entries, w1, w2)
      invariant Ascending(Borders(entries[i..], w1, w2), l1begin, l2begin, |a|, |b|)
    {
      var mdhe := entries[i];
      BordersHead(entries[i..], w1, w2);
      assert entries[i..][1..] == entries[i + 1..];
      ghost var later, sofar := Borders(entries[i + 1..], w1, w2), passed;
      dl, l1begin, l2begin, passed :=
        RunEntry(s, mdhe, source1, lines1, source2, lines2, w1, w2, a, b, dl, l1begin, l2begin, passed, later);
      assert sofar + (EntryBorders(mdhe, w1, w2) + later) == (sofar + EntryBorders(mdhe, w1, w2)) + later;
      i := i + 1;
    }
    assert entries[|entries|..] == [];
    NoBorders(w1, w2, l1begin, l2begin, |a|, |b|);
    var rest := RunWindow(s, source1, lines1, source2, lines2, l1begin, |lines1|, l2begin, |lines2|);
    ProgressExtends(m, dl, rest, a, b, passed, l1begin, l2begin, |a|, |b|);
    dl := dl + rest;
    assert passed + [] == passed;
    ProgressDone(m, dl, a, b, passed);
  }

  lemma NoProgressYet(m: Manner, a: seq<Line>, b: seq<Line>)
    ensures Progress(m, [], a, b, [], 0, 0)
  {
  }

  lemma ProgressDone(m: Manner, dl: seq<Diff>, a: seq<Line>, b: seq<Line>, passed: seq<(int, int)>)
    requires Progress(m, dl, a, b, passed + [(|a|, |b|)], |a|, |b|)
    ensures Total1(dl) == |a| && Total2(dl) == |b|
    ensures m.Buffers() ==> Covers(dl, a, b, 0, 0, |a|, |b|)
    ensures m.Buffers() ==> forall i :: 0 <= i < |passed| ==> CutAt(dl, a, b, passed[i].0, passed[i].1, |a|, |b|)
    ensures WindowsDone(dl, a, b, passed + [(|a|, |b|)], m)
    ensures m.Text() && passed == [] && m.minimal ==>
              forall cx, cy :: Aligned(a, b, cx, cy) ==> Unpaired(dl) <= Marked(cx) + Marked(cy)
    ensures m.Text() && passed == [] && a == b ==> Unpaired(dl) == 0
  {
    hide WindowsDone, CutAtAll, CutAt, Covers, Kept, Marked, Unpaired, Total1, Total2, Aligned;
    var all := passed + [(|a|, |b|)];
    if m.Buffers() {
      CutsPassed(dl, a, b, passed);
    }
    if m.Text() && passed == [] {
      assert all == [(|a|, |b|)];
      WholeFiles(dl, a, b, m);
    }
  }

  lemma CutsPassed(dl: seq<Diff>, a: seq<Line>, b: seq<Line>, passed: seq<(int, int)>)
    requires CutAtAll(dl, a, b, passed + [(|a|, |b|)], |a|, |b|)
    ensures Covers(dl, a, b, 0, 0, |a|, |b|)
    ensures forall i :: 0 <= i < |passed| ==> CutAt(dl, a, b, passed[i].0, passed[i].1, |a|, |b|)
  {
    hide CutAt, Covers;
    var all := passed + [(|a|, |b|)];
    assert forall i :: 0 <= i < |passed| ==> all[i] == passed[i];
  }

  lemma BordersHead(entries: seq<Entry>, w1: Selector, w2: Selector)
    requires |entries| > 0
    ensures Borders(entries, w1, w2) == EntryBorders(entries[0], w1, w2) + Borders(entries[1..], w1, w2)
  {
  }

  lemma NoBorders(w1: Selector, w2: Selector, p1: int, p2: int, n1: int, n2: int)
    requires Ascending(Borders([], w1, w2), p1, p2, n1, n2)
    ensures Borders([], w1, w2) == [] && p1 <= n1 && p2 <= n2
  {
  }

  lemma NextBorder(borders: seq<(int, int)>, p1: int, p2: int, n1: int, n2: int)
    requires |borders| > 0 && Ascending(borders, p1, p2, n1, n2)
    ensures p1 <= borders[0].0 <= n1 && p2 <= borders[0].1 <= n2
    ensures Ascending(borders[1..], borders[0].0, borders[0].1, n1, n2)
  {
    AscendingBounds(borders[1..], borders[0].0, borders[0].1, n1, n2);
  }

  lemma {:induction false} AscendingBounds(borders: seq<(int, int)>, p1: int, p2: int, n1: int, n2: int)
    requires Ascending(borders, p1, p2, n1, n2)
    ensures p1 <= n1 && p2 <= n2
    decreases |borders|
  {
    if |borders| > 0 {
      AscendingBounds(borders[1..], borders[0].0, borders[0].1, n1, n2);
    }
  }
}
