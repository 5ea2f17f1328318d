/**
  How many lines the comparison leaves without counterpart, told on the lines themselves: the codes only
  say which lines are equal, so what holds for the codes of two windows holds for the windows.
 */
module Windows {
  import opened EditDistance
  import opened Alignment
  import opened DiffLists
  import opened Lines
  import CompareSeq

  /** The codes of the lines of two windows: equal exactly for equal lines. */
  ghost predicate CodesFor(a: seq<Line>, b: seq<Line>, cs: seq<int>, ds: seq<int>) {
    && |cs| == |a| && |ds| == |b|
    && (forall i, j :: 0 <= i < |a| && 0 <= j < |b| ==> (cs[i] == ds[j] <==> a[i] == b[j]))
    && (forall i, j :: 0 <= i < |a| && 0 <= j < |a| ==> (cs[i] == cs[j] <==> a[i] == a[j]))
    && (forall i, j :: 0 <= i < |b| && 0 <= j < |b| ==> (ds[i] == ds[j] <==> b[i] == b[j]))
  }

  /** What is known about the two inputs, and how the differ searches. */
  datatype Manner = Manner(source1: Source, source2: Source, minimal: bool, speedLargeFiles: bool) {
    predicate Text() { source1 == source2 == Source.Text }

    predicate Buffers() { !(source1 == source2 == NoBuffer) }
  }

  /**
    The lines of the two windows without counterpart are those that the differ marks, or all of them unless
    both inputs are text; only lines without buffers count as equal if there are equally many.
   */
  ghost predicate WindowDone(dl: seq<Diff>, a: seq<Line>, b: seq<Line>, m: Manner) {
    if m.Text() then exists cs, ds :: CodesFor(a, b, cs, ds) && MadeBy(dl, cs, ds, m.minimal, m.speedLargeFiles)
    else dl == [if !m.Buffers() && |a| == |b| then Diff(|a|, 0, 0) else Diff(0, |a|, |b|)]
  }

  /** An alignment of the lines is one of their codes. */
  lemma {:induction false} AlignedCodes<T>(a: seq<T>, b: seq<T>, cs: seq<int>, ds: seq<int>, cx: seq<bool>,
                                           cy: seq<bool>)
    requires Aligned(a, b, cx, cy) && |cs| == |a| && |ds| == |b|
    requires forall i, j :: 0 <= i < |a| && 0 <= j < |b| && a[i] == b[j] ==> cs[i] == ds[j]
    ensures Aligned(cs, ds, cx, cy)
    decreases |a| + |b|
  {
    if |a| > 0 && cx[0] {
      AlignedCodes(a[1..], b, cs[1..], ds, cx[1..], cy);
    } else if |b| > 0 && cy[0] {
      AlignedCodes(a, b[1..], cs, ds[1..], cx, cy[1..]);
    } else if |a| > 0 && |b| > 0 {
      HeadsKept(a, b, cx, cy);
      AlignedCodes(a[1..], b[1..], cs[1..], ds[1..], cx[1..], cy[1..]);
    }
  }

  lemma HeadsKept<T>(a: seq<T>, b: seq<T>, cx: seq<bool>, cy: seq<bool>)
    requires Aligned(a, b, cx, cy) && |a| > 0 && |b| > 0 && !cx[0] && !cy[0]
    ensures a[0] == b[0] && Aligned(a[1..], b[1..], cx[1..], cy[1..])
  {
    var s, t := Kept(a, cx), Kept(b, cy);
    assert s[0] == a[0] && t[0] == b[0];
    assert s[1..] == Kept(a[1..], cx[1..]) && t[1..] == Kept(b[1..], cy[1..]);
  }

  /** With `minimal` no alignment of the two windows has fewer lines without counterpart. */
  lemma WindowMinimal(dl: seq<Diff>, a: seq<Line>, b: seq<Line>, m: Manner, cx: seq<bool>, cy: seq<bool>)
    requires WindowDone(dl, a, b, m) && m.Text() && m.minimal && Aligned(a, b, cx, cy)
    ensures Unpaired(dl) <= Marked(cx) + Marked(cy)
  {
    hide MadeBy, Kept, Marked, Unpaired;
    var cs, ds :| CodesFor(a, b, cs, ds) && MadeBy(dl, cs, ds, true, m.speedLargeFiles);
    MadeIsMinimal(dl, cs, ds, true, m.speedLargeFiles);
    AlignedCodes(a, b, cs, ds, cx, cy);
    assert cs[0..] == cs && ds[0..] == ds && cx[0..] == cx && cy[0..] == cy;
    DistIsLowerBound(cs, ds, cx, cy, 0, 0);
  }

  /** Equal windows leave no line without counterpart. */
  lemma WindowEqual(dl: seq<Diff>, a: seq<Line>, m: Manner)
    requires WindowDone(dl, a, a, m) && m.Text()
    ensures Unpaired(dl) == 0
  {
    hide MadeBy, Unpaired, Dist;
    var cs, ds :| CodesFor(a, a, cs, ds) && MadeBy(dl, cs, ds, m.minimal, m.speedLargeFiles);
    assert cs == ds;
    MadeIsMinimal(dl, cs, ds, m.minimal, m.speedLargeFiles);
    CompareSeq.MatchesCostNothing(cs, ds, 0, |cs|, 0, |ds|);
  }

  // ----- one window after the other

  /** Where the last window ended. */
  function LastCut(cuts: seq<(int, int)>): (int, int) {
    if |cuts| == 0 then (0, 0) else cuts[|cuts| - 1]
  }

  /** The list is made of one part for each window between successive cuts, and each part is good. */
  ghost predicate WindowsDone(dl: seq<Diff>, a: seq<Line>, b: seq<Line>, cuts: seq<(int, int)>, m: Manner)
    decreases |cuts|
  {
    if |cuts| == 0 then dl == []
    else
      var before, q := cuts[..|cuts| - 1], LastCut(cuts);
      var p := LastCut(before);
      && 0 <= p.0 <= q.0 <= |a| && 0 <= p.1 <= q.1 <= |b|
      && exists k :: 0 <= k <= |dl| && WindowsDone(dl[..k], a, b, before, m)
                     && WindowDone(dl[k..], a[p.0..q.0], b[p.1..q.1], m)
  }

  lemma WindowsNext(dl: seq<Diff>, el: seq<Diff>, a: seq<Line>, b: seq<Line>, cuts: seq<(int, int)>, q: (int, int),
                       m: Manner)
    requires WindowsDone(dl, a, b, cuts, m)
    requires 0 <= LastCut(cuts).0 <= q.0 <= |a| && 0 <= LastCut(cuts).1 <= q.1 <= |b|
    requires WindowDone(el, a[LastCut(cuts).0..q.0], b[LastCut(cuts).1..q.1], m)
    ensures WindowsDone(dl + el, a, b, cuts + [q], m) && LastCut(cuts + [q]) == q
  {
    hide WindowDone;
    var fl, more := dl + el, cuts + [q];
    assert more[..|more| - 1] == cuts && fl[..|dl|] == dl && fl[|dl|..] == el;
  }

  /** Without borders there is one window: the whole of both inputs. */
  lemma OneWindow(dl: seq<Diff>, a: seq<Line>, b: seq<Line>, m: Manner)
    requires WindowsDone(dl, a, b, [(|a|, |b|)], m)
    ensures WindowDone(dl, a, b, m)
  {
    hide WindowDone;
    var cuts := [(|a|, |b|)];
    assert cuts[..0] == [] && a[0..|a|] == a && b[0..|b|] == b;
    var k :| 0 <= k <= |dl| && WindowsDone(dl[..k], a, b, cuts[..0], m)
      && WindowDone(dl[k..], a[0..|a|], b[0..|b|], m);
    assert dl[k..] == dl;
  }

  /** So, on text, the list is minimal if that is asked for, and finds no difference in equal inputs. */
  lemma WholeFiles(dl: seq<Diff>, a: seq<Line>, b: seq<Line>, m: Manner)
    requires WindowsDone(dl, a, b, [(|a|, |b|)], m) && m.Text()
    ensures m.minimal ==> forall cx, cy :: Aligned(a, b, cx, cy) ==> Unpaired(dl) <= Marked(cx) + Marked(cy)
    ensures a == b ==> Unpaired(dl) == 0
  {
    hide WindowsDone, WindowDone, Kept, Marked, Unpaired;
    OneWindow(dl, a, b, m);
    if m.minimal {
      forall cx, cy | Aligned(a, b, cx, cy)
        ensures Unpaired(dl) <= Marked(cx) + Marked(cy)
      {
        WindowMinimal(dl, a, b, m, cx, cy);
      }
    }
    if a == b {
      WindowEqual(dl, a, m);
    }
  }
}
