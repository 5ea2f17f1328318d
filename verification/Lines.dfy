/**
  When two lines count as equal.

  kdiff3 asks this twice: the line differ compares lines with `lines_differ` and hashes them on the
  way, the three-way alignment compares them with `LineData::equal`.  Both skip characters, but not
  the same ones.
 */
module Lines {
  datatype Option<T> = None | Some(value: T)

  /** A UTF-16 code unit. */
  type Unit = c: int | 0 <= c < 0x1_0000

  type Line = seq<Unit>

  /** The characters that `isspace` accepts in the C locale. */
  predicate IsSpace(c: int) { 9 <= c <= 13 || c == 32 }

  /** The settings of the differ; `isDigit` says which code units are decimal digits. */
  datatype Options = Options(ignoreNumbers: bool, isDigit: int -> bool)

  /** The differ looks at the low byte of the code unit to decide whether it is white space. */
  predicate DifferSkips(o: Options, c: int) {
    IsSpace(c % 256) || (o.ignoreNumbers && (o.isDigit(c) || c == '-' as int || c == '.' as int))
  }

  /** The alignment converts to Latin-1 first, where every other code unit becomes 0. */
  predicate AlignerSkips(c: int) {
    IsSpace(if c < 256 then c else 0)
  }

  /** What remains of a line for the differ. */
  ghost function Essence(o: Options, s: Line): Line {
    if |s| == 0 then [] else (if DifferSkips(o, s[0]) then [] else [s[0]]) + Essence(o, s[1..])
  }

  /** What remains of a line for the aligner. */
  ghost function Blanked(s: Line): Line {
    if |s| == 0 then [] else (if AlignerSkips(s[0]) then [] else [s[0]]) + Blanked(s[1..])
  }

  ghost function EssencesOf(o: Options, ls: seq<Line>): (r: seq<Line>)
    ensures |r| == |ls| && forall i :: 0 <= i < |ls| ==> r[i] == Essence(o, ls[i])
  {
    seq(|ls|, i requires 0 <= i < |ls| => Essence(o, ls[i]))
  }

  ghost function BlanksOf(ls: seq<Line>): (r: seq<Line>)
    ensures |r| == |ls| && forall i :: 0 <= i < |ls| ==> r[i] == Blanked(ls[i])
  {
    seq(|ls|, i requires 0 <= i < |ls| => Blanked(ls[i]))
  }

  ghost predicate SameEssence(o: Options, s: Line, t: Line) { Essence(o, s) == Essence(o, t) }

  lemma EssenceStep(o: Options, s: Line, i: int)
    requires 0 <= i < |s|
    ensures Essence(o, s[i..]) == (if DifferSkips(o, s[i]) then [] else [s[i]]) + Essence(o, s[i + 1..])
  {
    assert s[i..][1..] == s[i + 1..];
  }

  lemma BlankedStep(s: Line, i: int)
    requires 0 <= i < |s|
    ensures Blanked(s[i..]) == (if AlignerSkips(s[i]) then [] else [s[i]]) + Blanked(s[i + 1..])
  {
    assert s[i..][1..] == s[i + 1..];
  }

  lemma EssenceEnd(o: Options, s: Line)
    ensures Essence(o, s[|s|..]) == []
  {
  }

  /** The first position from i on that the differ does not skip. */
  method DifferSkip(o: Options, s: Line, i: int) returns (t: int)
    requires 0 <= i <= |s|
    ensures i <= t <= |s| && (t < |s| ==> !DifferSkips(o, s[t]))
    ensures Essence(o, s[t..]) == Essence(o, s[i..])
  {
    t := i;
    while t < |s| && DifferSkips(o, s[t])
      invariant i <= t <= |s| && Essence(o, s[t..]) == Essence(o, s[i..])
    {
      EssenceStep(o, s, t);
      t := t + 1;
    }
  }

  /** The two-cursor comparison of the differ decides whether the lines differ in what it does not skip. */
  method LinesDiffer(o: Options, s1: Line, s2: Line) returns (differ: bool)
    ensures differ <==> !SameEssence(o, s1, s2)
  {
    var t1, t2 := 0, 0;
    assert s1[0..] == s1 && s2[0..] == s2;
    while true
      invariant 0 <= t1 <= |s1| && 0 <= t2 <= |s2|
      invariant SameEssence(o, s1, s2) <==> Essence(o, s1[t1..]) == Essence(o, s2[t2..])
      decreases |s1| - t1 + |s2| - t2
    {
      if t1 != |s1| && t2 != |s2| && s1[t1] == s2[t2] {
        EssenceStep(o, s1, t1);
        EssenceStep(o, s2, t2);
        EqualHeads(s1[t1], DifferSkips(o, s1[t1]), Essence(o, s1[t1 + 1..]), Essence(o, s2[t2 + 1..]));
      } else {
        t1 := DifferSkip(o, s1, t1);
        t2 := DifferSkip(o, s2, t2);
        if t1 != |s1| {
          EssenceStep(o, s1, t1);
        }
        if t2 != |s2| {
          EssenceStep(o, s2, t2);
        }
        if t1 != |s1| && t2 != |s2| {
          if s1[t1] != s2[t2] {
            assert Essence(o, s1[t1..])[0] != Essence(o, s2[t2..])[0];
            return true;
          }
          EqualHeads(s1[t1], false, Essence(o, s1[t1 + 1..]), Essence(o, s2[t2 + 1..]));
        } else {
          EssenceEnd(o, s1);
          EssenceEnd(o, s2);
          return !(t1 == |s1| && t2 == |s2|);
        }
      }
      t1, t2 := t1 + 1, t2 + 1;
    }
  }

  /** A common head does not matter for equality, whether it is skipped or not. */
  lemma EqualHeads(c: Unit, skipped: bool, u: Line, v: Line)
    ensures (if skipped then [] else [c]) + u == (if skipped then [] else [c]) + v <==> u == v
  {
    assert [] + u == u && [] + v == v;
    assert ([c] + u)[1..] == u && ([c] + v)[1..] == v;
  }

  method AlignerSkip(s: Line, i: int) returns (t: int)
    requires 0 <= i <= |s|
    ensures i <= t <= |s| && (t < |s| ==> !AlignerSkips(s[t]))
    ensures Blanked(s[t..]) == Blanked(s[i..])
  {
    t := i;
    while t < |s| && AlignerSkips(s[t])
      invariant i <= t <= |s| && Blanked(s[t..]) == Blanked(s[i..])
    {
      BlankedStep(s, t);
      t := t + 1;
    }
  }

  /** Equality of lines as the aligner sees it; an empty line equals nothing, not even an empty line. */
  ghost predicate AlignerEqual(s1: Line, s2: Line) {
    s1 != [] && s2 != [] && Blanked(s1) == Blanked(s2)
  }

  /** `LineData::equal`; a string without characters counts as null there. */
  method LineDataEqual(s1: Line, s2: Line) returns (equal: bool)
    ensures equal <==> AlignerEqual(s1, s2)
  {
    if s1 == [] || s2 == [] {
      return false;
    }
    var p1, p2 := 0, 0;
    assert s1[0..] == s1 && s2[0..] == s2;
    while true
      invariant 0 <= p1 <= |s1| && 0 <= p2 <= |s2|
      invariant Blanked(s1) == Blanked(s2) <==> Blanked(s1[p1..]) == Blanked(s2[p2..])
      decreases |s1| - p1
    {
      p1 := AlignerSkip(s1, p1);
      p2 := AlignerSkip(s2, p2);
      if p1 < |s1| {
        BlankedStep(s1, p1);
      }
      if p2 < |s2| {
        BlankedStep(s2, p2);
      }
      if (p1 < |s1|) != (p2 < |s2|) {
        return false;
      }
      if p1 < |s1| && s1[p1] != s2[p2] {
        assert Blanked(s1[p1..])[0] != Blanked(s2[p2..])[0];
        return false;
      }
      if p1 == |s1| {
        return true;
      }
      EqualHeads(s1[p1], false, Blanked(s1[p1 + 1..]), Blanked(s2[p2 + 1..]));
      p1, p2 := p1 + 1, p2 + 1;
    }
  }

  /** The differ skips everything that the aligner skips. */
  lemma {:induction false} EssenceOfBlanked(o: Options, s: Line)
    ensures Essence(o, Blanked(s)) == Essence(o, s)
  {
    if |s| > 0 {
      EssenceOfBlanked(o, s[1..]);
      if !AlignerSkips(s[0]) {
        assert Blanked(s)[1..] == Blanked(s[1..]);
      } else {
        assert Blanked(s) == Blanked(s[1..]);
        assert Essence(o, s) == Essence(o, s[1..]);
      }
    }
  }

  /** So lines that are equal for the aligner have the same essence for the differ. */
  lemma AlignerEqualIsSameEssence(o: Options, s: Line, t: Line)
    requires AlignerEqual(s, t)
    ensures SameEssence(o, s, t)
  {
    EssenceOfBlanked(o, s);
    EssenceOfBlanked(o, t);
  }

  /**
    The converse fails in two ways: a code unit whose low byte is 32 is white space to the differ only, and
    empty lines are equal for the differ only.
   */
  lemma SameEssenceIsNotAlignerEqual(o: Options)
    ensures SameEssence(o, [0x0120], [32]) && !AlignerEqual([0x0120], [32])
    ensures SameEssence(o, [], []) && !AlignerEqual([], [])
  {
    assert Essence(o, [0x0120][1..]) == [] && Essence(o, [32][1..]) == [];
    assert Blanked([0x0120]) == [0x0120];
    assert Blanked([32]) == Blanked([32][1..]) == [];
  }

  /** No character of the line is skipped by the differ alone. */
  ghost predicate Plain(o: Options, s: Line) {
    forall i :: 0 <= i < |s| ==> (DifferSkips(o, s[i]) <==> AlignerSkips(s[i]))
  }

  /** Such a line reads the same to both. */
  lemma {:induction false} PlainEssence(o: Options, s: Line)
    requires Plain(o, s)
    ensures Essence(o, s) == Blanked(s)
  {
    if |s| > 0 {
      forall i | 0 <= i < |s[1..]|
        ensures DifferSkips(o, s[1..][i]) <==> AlignerSkips(s[1..][i])
      {
        assert s[1..][i] == s[i + 1];
      }
      PlainEssence(o, s[1..]);
    }
  }

  /** A plain line that is not empty. */
  ghost predicate Comparable(o: Options, s: Line) { s != [] && Plain(o, s) }

  /**
    A line compares in the same way with all comparable lines exactly if it is comparable itself.  (Two
    lines that are not may well agree, if they are the same line.)
   */
  lemma RelationsAgreeExactlyOnComparable(o: Options, s: Line)
    ensures Comparable(o, s) <==>
              (forall t :: Comparable(o, t) ==> (SameEssence(o, s, t) <==> AlignerEqual(s, t)))
  {
    if Comparable(o, s) {
      forall t | Comparable(o, t)
        ensures SameEssence(o, s, t) <==> AlignerEqual(s, t)
      {
        PlainEssence(o, s);
        PlainEssence(o, t);
      }
    } else {
      var t := if Essence(o, s) == [] then [32] else Essence(o, s);
      EssenceIsPlain(o, s);
      EssenceFixed(o, Essence(o, s));
      assert Essence(o, [32][1..]) == [];
      assert SameEssence(o, s, t) && Comparable(o, t);
      PlainEssence(o, t);
      if s != [] && Blanked(s) == Blanked(t) {
        OnlyPlainFixed(o, s);
        assert false;
      }
      assert !AlignerEqual(s, t);
    }
  }

  lemma {:induction false} EssenceIsPlain(o: Options, s: Line)
    ensures Plain(o, Essence(o, s)) && forall i :: 0 <= i < |Essence(o, s)| ==> !DifferSkips(o, Essence(o, s)[i])
  {
    if |s| > 0 {
      EssenceIsPlain(o, s[1..]);
    }
  }

  lemma {:induction false} EssenceFixed(o: Options, t: Line)
    requires forall i :: 0 <= i < |t| ==> !DifferSkips(o, t[i])
    ensures Essence(o, t) == t
  {
    if |t| > 0 {
      EssenceFixed(o, t[1..]);
    }
  }

  /** If the aligner keeps no more than the differ, nothing is skipped by the differ alone. */
  lemma {:induction false} OnlyPlainFixed(o: Options, s: Line)
    requires Blanked(s) == Essence(o, s)
    ensures Plain(o, s)
  {
    BlankedNoShorter(o, s);
    if |s| > 0 {
      BlankedNoShorter(o, s[1..]);
      if AlignerSkips(s[0]) <==> DifferSkips(o, s[0]) {
        EqualHeads(s[0], AlignerSkips(s[0]), Blanked(s[1..]), Essence(o, s[1..]));
        OnlyPlainFixed(o, s[1..]);
        forall i | 0 <= i < |s|
          ensures DifferSkips(o, s[i]) <==> AlignerSkips(s[i])
        {
          if i > 0 {
            assert s[1..][i - 1] == s[i];
          }
        }
      } else {
        assert false;
      }
    }
  }

  lemma {:induction false} BlankedNoShorter(o: Options, s: Line)
    ensures |Blanked(s)| >= |Essence(o, s)|
  {
    if |s| > 0 {
      BlankedNoShorter(o, s[1..]);
    }
  }

  // ----- equality of the aligner as equality of keys

  /** What remains of a line; an empty line, which equals no other, gets a mark instead. */
  ghost function AlignerKey(s: Line, mark: Unit): Line { if s == [] then [mark] else Blanked(s) }

  ghost function AlignerKeys(ls: seq<Line>, mark: Unit): (r: seq<Line>)
    ensures |r| == |ls| && forall i :: 0 <= i < |ls| ==> r[i] == AlignerKey(ls[i], mark)
  {
    seq(|ls|, i requires 0 <= i < |ls| => AlignerKey(ls[i], mark))
  }

  lemma {:induction false} BlankedKeeps(s: Line)
    ensures forall i :: 0 <= i < |Blanked(s)| ==> !AlignerSkips(Blanked(s)[i])
  {
    if |s| > 0 {
      BlankedKeeps(s[1..]);
    }
  }

  /** With different marks that the aligner skips in lines, keys agree exactly for lines that are equal. */
  lemma KeysTellEquality(s: Line, t: Line, m: Unit, n: Unit)
    requires AlignerSkips(m) && AlignerSkips(n) && m != n
    ensures AlignerKey(s, m) == AlignerKey(t, n) <==> AlignerEqual(s, t)
  {
    BlankedKeeps(s);
    BlankedKeeps(t);
    assert |Blanked(s)| > 0 ==> !AlignerSkips(Blanked(s)[0]);
    assert |Blanked(t)| > 0 ==> !AlignerSkips(Blanked(t)[0]);
    assert [m][0] == m && [n][0] == n;
  }
}
