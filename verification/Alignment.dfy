/**
  Valid alignments of two runs of lines.

  A diff marks lines of either file as changed.  It is valid when the unmarked lines of the two
  files are equally many and pairwise equal in order.
 */
module Alignment {
  import opened EditDistance

  /** The unmarked elements, in order. */
  ghost function Kept<T>(s: seq<T>, changed: seq<bool>): seq<T>
    requires |s| == |changed|
  {
    if |s| == 0 then []
    else (if changed[0] then [] else [s[0]]) + Kept(s[1..], changed[1..])
  }

  /** The number of marked elements. */
  ghost function Marked(changed: seq<bool>): nat {
    if |changed| == 0 then 0 else (if changed[0] then 1 else 0) + Marked(changed[1..])
  }

  ghost predicate Aligned<T>(xs: seq<T>, ys: seq<T>, cx: seq<bool>, cy: seq<bool>) {
    |xs| == |cx| && |ys| == |cy| && Kept(xs, cx) == Kept(ys, cy)
  }

  lemma {:induction false} KeptConcat<T>(s: seq<T>, t: seq<T>, cs: seq<bool>, ct: seq<bool>)
    requires |s| == |cs| && |t| == |ct|
    ensures Kept(s + t, cs + ct) == Kept(s, cs) + Kept(t, ct)
  {
    if |s| == 0 {
      assert s + t == t && cs + ct == ct;
    } else {
      KeptConcat(s[1..], t, cs[1..], ct);
      assert (s + t)[1..] == s[1..] + t && (cs + ct)[1..] == cs[1..] + ct;
      var head := if cs[0] then [] else [s[0]];
      assert Kept(s + t, cs + ct) == head + (Kept(s[1..], cs[1..]) + Kept(t, ct));
      assert head + (Kept(s[1..], cs[1..]) + Kept(t, ct)) == (head + Kept(s[1..], cs[1..])) + Kept(t, ct);
    }
  }

  lemma {:induction false} MarkedConcat(cs: seq<bool>, ct: seq<bool>)
    ensures Marked(cs + ct) == Marked(cs) + Marked(ct)
  {
    if |cs| == 0 {
      assert cs + ct == ct;
    } else {
      MarkedConcat(cs[1..], ct);
      assert (cs + ct)[1..] == cs[1..] + ct;
    }
  }

  lemma KeptHead<T>(s: seq<T>, changed: seq<bool>)
    requires |s| == |changed| > 0
    ensures Kept(s, changed) == (if changed[0] then [] else [s[0]]) + Kept(s[1..], changed[1..])
    ensures Marked(changed) == (if changed[0] then 1 else 0) + Marked(changed[1..])
  {
  }

  lemma {:induction false} KeptLength<T>(s: seq<T>, changed: seq<bool>)
    requires |s| == |changed|
    ensures |Kept(s, changed)| + Marked(changed) == |s|
  {
    if |s| > 0 {
      KeptLength(s[1..], changed[1..]);
    }
  }

  lemma {:induction false} AllMarked<T>(s: seq<T>, changed: seq<bool>)
    requires |s| == |changed| && forall i :: 0 <= i < |s| ==> changed[i]
    ensures Kept(s, changed) == [] && Marked(changed) == |s|
  {
    if |s| > 0 {
      AllMarked(s[1..], changed[1..]);
    }
  }

  lemma {:induction false} NoneMarked<T>(s: seq<T>, changed: seq<bool>)
    requires |s| == |changed| && forall i :: 0 <= i < |s| ==> !changed[i]
    ensures Kept(s, changed) == s && Marked(changed) == 0
  {
    if |s| > 0 {
      NoneMarked(s[1..], changed[1..]);
    }
  }

  /** No valid alignment marks fewer lines than the distance of the two runs. */
  lemma {:induction false} DistIsLowerBound(xs: seq<int>, ys: seq<int>, cx: seq<bool>, cy: seq<bool>, i: int, j: int)
    requires 0 <= i <= |xs| == |cx| && 0 <= j <= |ys| == |cy|
    requires Aligned(xs[i..], ys[j..], cx[i..], cy[j..])
    ensures Marked(cx[i..]) + Marked(cy[j..]) >= Dist(xs, ys, i, |xs|, j, |ys|)
    decreases |xs| - i + |ys| - j
  {
    FrontStep(xs, ys, i, |xs|, j, |ys|);
    if i < |xs| && cx[i] {
      assert xs[i..][1..] == xs[i + 1..] && cx[i..][1..] == cx[i + 1..];
      DistIsLowerBound(xs, ys, cx, cy, i + 1, j);
    } else if j < |ys| && cy[j] {
      assert ys[j..][1..] == ys[j + 1..] && cy[j..][1..] == cy[j + 1..];
      DistIsLowerBound(xs, ys, cx, cy, i, j + 1);
    } else if i < |xs| && j < |ys| {
      assert xs[i..][1..] == xs[i + 1..] && cx[i..][1..] == cx[i + 1..];
      assert ys[j..][1..] == ys[j + 1..] && cy[j..][1..] == cy[j + 1..];
      assert Kept(xs[i..], cx[i..])[0] == xs[i] && Kept(xs[i..], cx[i..])[1..] == Kept(xs[i + 1..], cx[i + 1..]);
      assert Kept(ys[j..], cy[j..])[0] == ys[j] && Kept(ys[j..], cy[j..])[1..] == Kept(ys[j + 1..], cy[j + 1..]);
      DistIsLowerBound(xs, ys, cx, cy, i + 1, j + 1);
    } else {
      KeptLength(xs[i..], cx[i..]);
      KeptLength(ys[j..], cy[j..]);
    }
  }

  /** Some valid alignment attains it, so the distance is the minimum over all valid alignments. */
  lemma {:induction false} DistIsAttained(xs: seq<int>, ys: seq<int>, i: int, j: int)
    returns (cx: seq<bool>, cy: seq<bool>)
    requires 0 <= i <= |xs| && 0 <= j <= |ys|
    ensures Aligned(xs[i..], ys[j..], cx, cy)
    ensures Marked(cx) + Marked(cy) == Dist(xs, ys, i, |xs|, j, |ys|)
    decreases |xs| - i + |ys| - j
  {
    if i == |xs| || j == |ys| {
      cx, cy := seq(|xs| - i, _ => true), seq(|ys| - j, _ => true);
      AllMarked(xs[i..], cx);
      AllMarked(ys[j..], cy);
    } else {
      var dx := if xs[i] == ys[j] then 1
                else if Dist(xs, ys, i + 1, |xs|, j, |ys|) < Dist(xs, ys, i, |xs|, j + 1, |ys|) then 1 else 0;
      var dy := if xs[i] == ys[j] then 1 else 1 - dx;
      cx, cy := DistIsAttained(xs, ys, i + dx, j + dy);
      assert xs[i..] == [xs[i]] + xs[i + 1..] && ys[j..] == [ys[j]] + ys[j + 1..];
      if dx == 1 {
        cx := [xs[i] != ys[j]] + cx;
      }
      if dy == 1 {
        cy := [xs[i] != ys[j]] + cy;
      }
    }
  }

  // ----- alignments of segments

  /** The lines [x0, x1) of one run are aligned with the lines [y0, y1) of the other. */
  ghost predicate Segment<T>(xs: seq<T>, ys: seq<T>, cx: seq<bool>, cy: seq<bool>, x0: int, x1: int, y0: int, y1: int) {
    && |xs| == |cx| && |ys| == |cy| && 0 <= x0 <= x1 <= |xs| && 0 <= y0 <= y1 <= |ys|
    && Kept(xs[x0..x1], cx[x0..x1]) == Kept(ys[y0..y1], cy[y0..y1])
  }

  lemma SegmentJoin<T>(xs: seq<T>, ys: seq<T>, cx: seq<bool>, cy: seq<bool>, x0: int, x1: int, x2: int, y0: int,
                       y1: int, y2: int)
    requires Segment(xs, ys, cx, cy, x0, x1, y0, y1) && Segment(xs, ys, cx, cy, x1, x2, y1, y2)
    ensures Segment(xs, ys, cx, cy, x0, x2, y0, y2)
  {
    hide Kept;
    KeptConcat(xs[x0..x1], xs[x1..x2], cx[x0..x1], cx[x1..x2]);
    KeptConcat(ys[y0..y1], ys[y1..y2], cy[y0..y1], cy[y1..y2]);
    assert xs[x0..x2] == xs[x0..x1] + xs[x1..x2] && cx[x0..x2] == cx[x0..x1] + cx[x1..x2];
    assert ys[y0..y2] == ys[y0..y1] + ys[y1..y2] && cy[y0..y2] == cy[y0..y1] + cy[y1..y2];
  }

  lemma MarkedJoin(c: seq<bool>, i: int, j: int, k: int)
    requires 0 <= i <= j <= k <= |c|
    ensures Marked(c[i..k]) == Marked(c[i..j]) + Marked(c[j..k])
  {
    MarkedConcat(c[i..j], c[j..k]);
    assert c[i..k] == c[i..j] + c[j..k];
  }
}
