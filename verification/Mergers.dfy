/**
  Walking two difference lists in lock step (`Merger`), to tell for each character of a line in which
  of the two lists it lies in a difference.
 */
module Mergers {
  import opened Lines
  import opened DiffLists
  import opened RowEdits

  /** The side of a list that belongs to the line: 0 for the first list, 1 for the second. */
  predicate Side(idx: int) { idx == 0 || idx == 1 }

  function DiffOf(d: Diff, idx: int): int { if idx == 0 then d.diff1 else d.diff2 }

  ghost function MarksOf(dl: seq<Diff>, idx: int): seq<bool> {
    if idx == 0 then Marks1(dl) else Marks2(dl)
  }

  predicate SaneDiff(d: Diff) { 0 <= d.equals && 0 <= d.diff1 && 0 <= d.diff2 }

  /** The marks of a character sequence, or nothing to say if there is no list. */
  ghost predicate InDifference(l: Option<seq<Diff>>, idx: int, i: int) {
    l.Some? && 0 <= i < |MarksOf(l.value, idx)| && MarksOf(l.value, idx)[i]
  }

  function Tail(s: seq<bool>): seq<bool> { if |s| > 0 then s[1..] else [] }

  /** The cursor in one list: the entry at hand, reduced by what was taken, and the next entry. */
  class MergeData {
    const pDiffList: Option<seq<Diff>>
    const idx: int
    var it: int
    var d: Diff

    /** The marks of the characters that are still to come. */
    ghost function Rest(): seq<bool>
      reads this
    {
      if pDiffList.None? || it < 0 || it > |pDiffList.value| then []
      else Left(d.equals, DiffOf(d, idx), MarksOf(pDiffList.value[it..], idx))
    }

    ghost predicate Valid()
      reads this
    {
      Side(idx) && SaneDiff(d) && (pDiffList.Some? ==> Sane(pDiffList.value) && 0 <= it <= |pDiffList.value|)
    }

    /** The cursor stands on a character, or at the end. */
    ghost predicate AtCharacter()
      reads this
    {
      Valid() && (pDiffList.Some? ==> d.equals > 0 || DiffOf(d, idx) > 0 || it == |pDiffList.value|)
    }

    constructor (p: Option<seq<Diff>>, i: int)
      requires Side(i) && (p.Some? ==> Sane(p.value))
      ensures AtCharacter() && idx == i && pDiffList == p
      ensures p.Some? ==> Rest() == MarksOf(p.value, i)
    {
      idx := i;
      pDiffList := p;
      d := Diff(0, 0, 0);
      it := 0;
      new;
      if p.Some? {
        assert p.value[0..] == p.value;
        NothingTaken(MarksOf(p.value, i));
        Update();
      }
    }

    predicate IsEq()
      reads this
    {
      pDiffList.None? || d.equals > 0
    }

    predicate IsEnd()
      reads this
    {
      pDiffList.None? || (it == |pDiffList.value| && d.equals == 0 && DiffOf(d, idx) == 0)
    }

    /** Takes one character away and moves on to the next. */
    method Update()
      requires Valid()
      modifies this
      ensures AtCharacter()
      ensures pDiffList.Some? ==>
                Rest() == if old(d.equals > 0 || DiffOf(d, idx) > 0) then Tail(old(Rest())) else old(Rest())
    {
      hide Left, MarksOf;
      ghost var rest := if pDiffList.Some? then MarksOf(pDiffList.value[it..], idx) else [];
      if d.equals > 0 {
        LeftTakeEqual(d.equals, DiffOf(d, idx), rest);
        d := d.(equals := d.equals - 1);
      } else if idx == 0 && d.diff1 > 0 {
        LeftTakeDiff(d.diff1, rest);
        d := d.(diff1 := d.diff1 - 1);
      } else if idx == 1 && d.diff2 > 0 {
        LeftTakeDiff(d.diff2, rest);
        d := d.(diff2 := d.diff2 - 1);
      }
      ghost var left := Rest();
      if pDiffList.Some? {
        while d.equals == 0 && DiffOf(d, idx) == 0 && it != |pDiffList.value|
          invariant Valid() && Rest() == left
          decreases |pDiffList.value| - it
        {
          NextMarks(pDiffList.value, it, idx);
          NothingTaken(MarksOf(pDiffList.value[it..], idx));
          d := pDiffList.value[it];
          it := it + 1;
        }
      }
    }
  }

  lemma NothingTaken(rest: seq<bool>)
    ensures Left(0, 0, rest) == rest
  {
  }

  lemma LeftTakeEqual(equals: int, diff: int, rest: seq<bool>)
    requires equals > 0
    ensures |Left(equals, diff, rest)| > 0 && !Left(equals, diff, rest)[0]
    ensures Left(equals, diff, rest)[1..] == Left(equals - 1, diff, rest)
  {
    assert Repeat(false, equals)[1..] == Repeat(false, equals - 1);
  }

  lemma LeftTakeDiff(diff: int, rest: seq<bool>)
    requires diff > 0
    ensures |Left(0, diff, rest)| > 0 && Left(0, diff, rest)[0] && Left(0, diff, rest)[1..] == Left(0, diff - 1, rest)
  {
    assert Repeat(true, diff)[1..] == Repeat(true, diff - 1);
  }

  lemma NextMarks(dl: seq<Diff>, it: int, idx: int)
    requires 0 <= it < |dl| && Side(idx)
    ensures MarksOf(dl[it..], idx) == Left(dl[it].equals, DiffOf(dl[it], idx), MarksOf(dl[it + 1..], idx))
  {
    assert dl[it..][1..] == dl[it + 1..];
    MarksHead(dl[it..]);
  }

  /** A character is reported equal exactly when it is not marked, and the end when no character is left. */
  lemma Reports(m: MergeData)
    requires m.AtCharacter()
    ensures m.pDiffList.Some? && |m.Rest()| > 0 ==> (m.IsEq() <==> !m.Rest()[0])
    ensures m.pDiffList.Some? ==> (m.IsEnd() <==> |m.Rest()| == 0)
    ensures m.pDiffList.None? ==> m.IsEq() && m.IsEnd()
  {
    hide MarksOf;
    if m.pDiffList.Some? {
      var rest := MarksOf(m.pDiffList.value[m.it..], m.idx);
      if m.d.equals > 0 {
        LeftTakeEqual(m.d.equals, DiffOf(m.d, m.idx), rest);
      } else if DiffOf(m.d, m.idx) > 0 {
        LeftTakeDiff(DiffOf(m.d, m.idx), rest);
      } else {
        NothingTaken(rest);
        NoMarks(m.idx);
        assert m.pDiffList.value[m.it..] == [];
      }
    }
  }

  lemma NoMarks(idx: int)
    ensures MarksOf([], idx) == []
  {
  }

  /** In which of the two lists something changed. */
  datatype ChangeFlags = ChangeFlags(aChanged: bool, bChanged: bool)

  const NO_CHANGE := ChangeFlags(false, false)

  /** Both cursors. */
  class Merger {
    const md1: MergeData
    const md2: MergeData

    ghost predicate Valid()
      reads this, md1, md2
    {
      md1 != md2 && md1.AtCharacter() && md2.AtCharacter() && md1.idx == 0 && md2.idx == 1
    }

    constructor (p1: Option<seq<Diff>>, p2: Option<seq<Diff>>)
      requires (p1.Some? ==> Sane(p1.value)) && (p2.Some? ==> Sane(p2.value))
      ensures Valid() && fresh(md1) && fresh(md2) && md1.pDiffList == p1 && md2.pDiffList == p2
      ensures p1.Some? ==> md1.Rest() == Marks1(p1.value)
      ensures p2.Some? ==> md2.Rest() == Marks2(p2.value)
    {
      md1 := new MergeData(p1, 0);
      md2 := new MergeData(p2, 1);
    }

    /** One character further in both lists. */
    method Next()
      requires Valid()
      modifies md1, md2
      ensures Valid()
      ensures md1.pDiffList.Some? ==> md1.Rest() == Tail(old(md1.Rest()))
      ensures md2.pDiffList.Some? ==> md2.Rest() == Tail(old(md2.Rest()))
    {
      Reports(md1);
      Reports(md2);
      md1.Update();
      md2.Update();
    }

    method WhatChanged() returns (changed: ChangeFlags)
      requires Valid()
      ensures md1.pDiffList.Some? && |md1.Rest()| > 0 ==> changed.aChanged == md1.Rest()[0]
      ensures md2.pDiffList.Some? && |md2.Rest()| > 0 ==> changed.bChanged == md2.Rest()[0]
      ensures (md1.pDiffList.None? ==> !changed.aChanged) && (md2.pDiffList.None? ==> !changed.bChanged)
    {
      Reports(md1);
      Reports(md2);
      changed := ChangeFlags(!md1.IsEq(), !md2.IsEq());
    }

    method IsEndReached() returns (end: bool)
      requires Valid()
      ensures end <==> (md1.pDiffList.Some? ==> |md1.Rest()| == 0) && (md2.pDiffList.Some? ==> |md2.Rest()| == 0)
    {
      Reports(md1);
      Reports(md2);
      end := md1.IsEnd() && md2.IsEnd();
    }
  }

  /** The list belongs to a line of this many characters. */
  ghost predicate OfLength(l: Option<seq<Diff>>, idx: int, size: nat) {
    l.Some? ==> Sane(l.value) && |MarksOf(l.value, idx)| == size
  }

  /** The flags of the first i characters are known: m1 and m2 are the marks of the lists that are there. */
  ghost predicate Walked(cs: seq<ChangeFlags>, i: int, size: nat, p1: Option<seq<Diff>>, p2: Option<seq<Diff>>,
                         m1: seq<bool>, m2: seq<bool>) {
    && |cs| == size && 0 <= i <= size && (p1.Some? ==> |m1| == size) && (p2.Some? ==> |m2| == size)
    && (forall j :: 0 <= j < i ==> cs[j].aChanged == (p1.Some? && m1[j]) && cs[j].bChanged == (p2.Some? && m2[j]))
    && (forall j :: i <= j < size ==> cs[j] == NO_CHANGE)
  }

  lemma WalkedOn(cs: seq<ChangeFlags>, i: int, size: nat, p1: Option<seq<Diff>>, p2: Option<seq<Diff>>, m1: seq<bool>,
                 m2: seq<bool>, c: ChangeFlags)
    requires Walked(cs, i, size, p1, p2, m1, m2) && i < size
    requires c.aChanged == (p1.Some? && m1[i..][0]) && c.bChanged == (p2.Some? && m2[i..][0])
    ensures Walked(cs[i := c], i + 1, size, p1, p2, m1, m2)
    ensures p1.Some? ==> |m1[i..]| > 0 && Tail(m1[i..]) == m1[i + 1..]
    ensures p2.Some? ==> |m2[i..]| > 0 && Tail(m2[i..]) == m2[i + 1..]
  {
  }

  /** All answers before the last one are negative. */
  ghost predicate Asked(reports: seq<bool>, i: int, end: bool) {
    |reports| == i + 1 > 0 && reports[i] == end && forall j :: 0 <= j < i ==> !reports[j]
  }

  lemma AskedAgain(reports: seq<bool>, i: int, end: bool)
    requires Asked(reports, i, false)
    ensures Asked(reports + [end], i + 1, end)
  {
  }

  /** What is left to walk. */
  lemma LeftToWalk(i: int, size: nat, p: Option<seq<Diff>>, m: seq<bool>)
    requires p.Some? ==> |m| == size
    requires 0 <= i <= size
    ensures p.Some? ==> (|m[i..]| == 0 <==> i == size)
  {
  }

  /**
    The change information of each character of a line: what the two lists say about its position.  The
    walk takes as many steps as the line has characters, unless there is no list at all; the merger reports
    its end then and not before (`reports` are its answers after 0, 1, 2, ... steps).
   */
  method CharChanged(p1: Option<seq<Diff>>, p2: Option<seq<Diff>>, size: nat)
    returns (charChanged: seq<ChangeFlags>, steps: nat, ghost reports: seq<bool>)
    requires OfLength(p1, 0, size) && OfLength(p2, 1, size)
    ensures |charChanged| == size
    ensures forall i :: 0 <= i < size ==>
              && (charChanged[i].aChanged <==> InDifference(p1, 0, i))
              && (charChanged[i].bChanged <==> InDifference(p2, 1, i))
    ensures steps == if p1.Some? || p2.Some? then size else 0
    ensures |reports| == steps + 1 && forall j :: 0 <= j <= steps ==> (reports[j] <==> j == steps)
  {
    hide MarksOf, Sane, MergeData.Rest, MergeData.AtCharacter, MergeData.Valid, Merger.Valid, Walked, Tail;
    ghost var m1, m2 := if p1.Some? then MarksOf(p1.value, 0) else [], if p2.Some? then MarksOf(p2.value, 1) else [];
    SidesMarks(p1, p2);
    charChanged := seq(size, _ => NO_CHANGE);
    WalkedStart(charChanged, size, p1, p2, m1, m2);
    var merger := new Merger(p1, p2);
    assert m1[0..] == m1 && m2[0..] == m2;
    var i := 0;
    var end := merger.IsEndReached();
    reports := [end];
    while !end && i < size
      invariant 0 <= i <= size == |charChanged| && merger.Valid() && fresh(merger.md1) && fresh(merger.md2)
      invariant Walked(charChanged, i, size, p1, p2, m1, m2)
      invariant p1.Some? ==> merger.md1.Rest() == m1[i..]
      invariant p2.Some? ==> merger.md2.Rest() == m2[i..]
      invariant p1.None? && p2.None? ==> i == 0
      invariant end <==> (p1.Some? ==> i == size) && (p2.Some? ==> i == size)
      invariant Asked(reports, i, end)
      decreases size - i
    {
      var changed := merger.WhatChanged();
      LeftToWalk(i, size, p1, m1);
      LeftToWalk(i, size, p2, m2);
      WalkedOn(charChanged, i, size, p1, p2, m1, m2, changed);
      charChanged := charChanged[i := changed];
      i := i + 1;
      merger.Next();
      LeftToWalk(i, size, p1, m1);
      LeftToWalk(i, size, p2, m2);
      end := merger.IsEndReached();
      AskedAgain(reports, i - 1, end);
      reports := reports + [end];
    }
    WalkedEnd(charChanged, i, size, p1, p2, m1, m2);
    steps := i;
  }

  lemma WalkedStart(cs: seq<ChangeFlags>, size: nat, p1: Option<seq<Diff>>, p2: Option<seq<Diff>>, m1: seq<bool>,
                    m2: seq<bool>)
    requires |cs| == size && (forall j :: 0 <= j < size ==> cs[j] == NO_CHANGE) && (p1.Some? ==> |m1| == size)
    requires p2.Some? ==> |m2| == size
    ensures Walked(cs, 0, size, p1, p2, m1, m2)
    ensures (p1.Some? ==> (|m1| == 0 <==> size == 0)) && (p2.Some? ==> (|m2| == 0 <==> size == 0))
  {
  }

  lemma WalkedEnd(cs: seq<ChangeFlags>, i: int, size: nat, p1: Option<seq<Diff>>, p2: Option<seq<Diff>>, m1: seq<bool>,
                  m2: seq<bool>)
    requires Walked(cs, i, size, p1, p2, m1, m2) && (i == size || (p1.None? && p2.None?))
    ensures |cs| == size && forall j :: 0 <= j < size ==>
              cs[j].aChanged == (p1.Some? && m1[j]) && cs[j].bChanged == (p2.Some? && m2[j])
  {
  }

  lemma SidesMarks(p1: Option<seq<Diff>>, p2: Option<seq<Diff>>)
    ensures p1.Some? ==> MarksOf(p1.value, 0) == Marks1(p1.value)
    ensures p2.Some? ==> MarksOf(p2.value, 1) == Marks2(p2.value)
  {
  }

  /** Lists that cover two lines fit both of them. */
  lemma CoversFitLengths(dl: seq<Diff>, a: Line, b: Line)
    requires Covers(dl, a, b, 0, 0, |a|, |b|)
    ensures OfLength(Some(dl), 0, |a|) && OfLength(Some(dl), 1, |b|)
  {
    CoversSane(dl, a, b, 0, 0, |a|, |b|);
    MarksLength(dl);
    CoversTotals(dl, a, b, 0, 0, |a|, |b|);
  }
}
