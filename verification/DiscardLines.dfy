/**
  Leaving out lines before the comparison (`discard_confusing_lines`).

  A line is discarded (1) when its code does not occur in the other file, and provisionally (2) when
  it occurs there very often.  Provisional discards are then cancelled unless they sit well inside a
  run of discarded lines (`ProvisionalDiscards`).
 */
module DiscardLines {
  import opened CompareSeq
  import opened ProvisionalDiscards

  function Count(s: seq<int>, x: int): nat {
    if |s| == 0 then 0 else Count(s[..|s| - 1], x) + (if s[|s| - 1] == x then 1 else 0)
  }

  /** The number of lines of one file in each equivalence class. */
  method CountEquivs(equivs: seq<int>, equivMax: nat) returns (count: array<int>)
    requires forall i :: 0 <= i < |equivs| ==> 0 <= equivs[i] < equivMax
    ensures fresh(count) && count.Length == equivMax
    ensures forall x :: 0 <= x < equivMax ==> count[x] == Count(equivs, x)
  {
    count := new int[equivMax](_ => 0);
    var i := 0;
    while i < |equivs|
      invariant 0 <= i <= |equivs|
      invariant forall x :: 0 <= x < equivMax ==> count[x] == Count(equivs[..i], x)
    {
      assert equivs[..i + 1][..i] == equivs[..i];
      count[equivs[i]] := count[equivs[i]] + 1;
      i := i + 1;
    }
    assert equivs[..|equivs|] == equivs;
  }

  /** Five times roughly the square root of the number of lines divided by 64. */
  method ManyMatches(end: nat) returns (many: nat)
    ensures many == 5 * RootByQuartering(end / 64) && NearRoot(RootByQuartering(end / 64), end / 64)
  {
    many := 5;
    var tem := end / 64;
    Quarter(1, tem, end / 64);
    tem := tem / 4;
    ghost var root, square := 1, 1;
    while tem > 0
      invariant many == 5 * root && 1 <= root && 0 <= tem && square == root * root >= 1
      invariant root == 1 || square <= end / 64
      invariant RootByQuartering(end / 64) == if tem > 0 then root * (2 * RootByQuartering(tem)) else root
      invariant (4 * square) * tem <= end / 64 < (4 * square) * (tem + 1)
    {
      Quarter(4 * square, tem, end / 64);
      Doubled(root);
      Associates(root, RootByQuartering(tem / 4));
      many := many * 2;
      root, square := root * 2, 4 * square;
      tem := tem / 4;
    }
  }

  /** What the first pass decides for a line with n matches in the other file; class 0 is never discarded. */
  function Verdict(equiv: int, n: int, many: nat): (v: int) {
    if equiv == 0 then 0 else if n == 0 then 1 else if n > many then 2 else 0
  }

  method MarkDiscards(equivs: seq<int>, counts: array<int>) returns (discards: array<int>, many: nat)
    requires forall i :: 0 <= i < |equivs| ==> 0 <= equivs[i] < counts.Length
    ensures fresh(discards) && discards.Length == |equivs| && many == 5 * RootByQuartering(|equivs| / 64)
    ensures forall i :: 0 <= i < |equivs| ==> discards[i] == Verdict(equivs[i], counts[equivs[i]], many)
  {
    many := ManyMatches(|equivs|);
    discards := new int[|equivs|](_ => 0);
    var i := 0;
    while i < |equivs|
      invariant 0 <= i <= |equivs|
      invariant forall k :: 0 <= k < i ==> discards[k] == Verdict(equivs[k], counts[equivs[k]], many)
      invariant forall k :: i <= k < |equivs| ==> discards[k] == 0
    {
      if equivs[i] != 0 {
        var nmatch := counts[equivs[i]];
        if nmatch == 0 {
          discards[i] := 1;
        } else if nmatch > many {
          discards[i] := 2;
        }
      }
      i := i + 1;
    }
  }

  // ----- the lines that take part

  /** The codes of the lines idx[0], idx[1], ... of a file. */
  ghost predicate Picks(equivs: seq<int>, idx: seq<int>, picked: seq<int>) {
    |picked| == |idx| && forall k :: 0 <= k < |idx| ==> 0 <= idx[k] < |equivs| && picked[k] == equivs[idx[k]]
  }

  /** Exactly the lines listed in idx are unmarked. */
  ghost predicate MarksAllBut(changed: seq<bool>, idx: seq<int>) {
    |changed| >= 2 && forall k :: 0 <= k < |changed| - 2 ==> (changed[k + 1] <==> k !in idx)
  }

  /** Discards the marked lines: the others keep their order and their real line numbers. */
  method Collect(equivs: seq<int>, discards: array<int>, changed: array<bool>, minimal: bool)
    returns (undiscarded: seq<int>, realindexes: seq<int>)
    requires discards.Length == |equivs| && changed.Length == |equivs| + 2
    requires forall k :: 0 <= k < changed.Length ==> !changed[k]
    modifies changed
    ensures RealIndexes(realindexes, |equivs|) && Picks(equivs, realindexes, undiscarded)
    ensures MarksAllBut(changed[..], realindexes) && !changed[0] && !changed[|equivs| + 1]
    ensures forall k :: 0 <= k < |equivs| ==> (k in realindexes <==> minimal || discards[k] == 0)
  {
    undiscarded, realindexes := [], [];
    var i := 0;
    while i < |equivs|
      invariant 0 <= i <= |equivs|
      invariant RealIndexes(realindexes, i) && Picks(equivs, realindexes, undiscarded)
      invariant forall k :: 0 <= k < i ==>
                  (changed[k + 1] <==> k !in realindexes) && (k in realindexes <==> minimal || discards[k] == 0)
      invariant forall k :: i < k < changed.Length ==> !changed[k]
      invariant !changed[0]
    {
      if minimal || discards[i] == 0 {
        undiscarded := undiscarded + [equivs[i]];
        realindexes := realindexes + [i];
      } else {
        changed[i + 1] := true;
      }
      i := i + 1;
    }
  }

  /** With `minimal` every line takes part, under its own number. */
  lemma {:induction false} AllTakePart(idx: seq<int>, n: int)
    requires RealIndexes(idx, n) && 0 <= n && forall k :: 0 <= k < n ==> k in idx
    ensures |idx| == n && forall k :: 0 <= k < n ==> idx[k] == k
    decreases n
  {
    assert |idx| > 0 ==> 0 <= idx[0] < n;
    if n > 0 {
      assert n - 1 in idx;
      var m :| 0 <= m < |idx| && idx[m] == n - 1;
      var last := idx[|idx| - 1];
      assert m == |idx| - 1;
      var rest := idx[..m];
      forall k | 0 <= k < n - 1
        ensures k in rest
      {
        assert k in idx;
        var j :| 0 <= j < |idx| && idx[j] == k;
        assert rest[j] == k;
      }
      AllTakePart(rest, n - 1);
    }
  }

  /** What the first pass decides for the lines of a file, by how often their codes occur in the other file. */
  ghost function Verdicts(equivs: seq<int>, other: seq<int>): (v: seq<int>)
    ensures |v| == |equivs|
    ensures forall k :: 0 <= k < |v| ==> v[k] == Verdict(equivs[k], Count(other, equivs[k]), Many(|equivs|))
  {
    seq(|equivs|, k requires 0 <= k < |equivs| => Verdict(equivs[k], Count(other, equivs[k]), Many(|equivs|)))
  }

  /** Five times the root of the number of lines divided by 64, up to a factor of two. */
  ghost function Many(lines: nat): (many: nat)
    ensures many % 5 == 0 && NearRoot(many / 5, lines / 64)
  {
    RootIsNear(lines / 64);
    5 * RootByQuartering(lines / 64)
  }

  /**
    Which lines of a file take part.  Without `minimal`, exactly these are discarded: the lines whose code
    does not occur in the other file, and those lines whose code occurs there many times that survive in a
    run of discards.
   */
  ghost predicate Discarded(equivs: seq<int>, other: seq<int>, discards: seq<int>, idx: seq<int>, minimal: bool) {
    && |discards| == |equivs| && ThreeValued(discards) && Guarded(discards, 0, |equivs|)
    && (forall k :: 0 <= k < |equivs| ==> (discards[k] == 1 <==> equivs[k] != 0 && Count(other, equivs[k]) == 0))
    && (forall k :: 0 <= k < |equivs| ==> (discards[k] == 2 <==> Survives(Verdicts(equivs, other), k)))
    && (forall k :: 0 <= k < |equivs| ==> (k in idx <==> minimal || discards[k] == 0))
  }

  /** The steps for one file; `count` holds the other file's class sizes. */
  method DiscardOne(equivs: seq<int>, ghost other: seq<int>, equivMax: nat, count: array<int>, changed: array<bool>,
                    minimal: bool)
    returns (undiscarded: seq<int>, realindexes: seq<int>, ghost discards: seq<int>)
    requires count.Length == equivMax && changed.Length == |equivs| + 2
    requires forall i :: 0 <= i < |equivs| ==> 0 <= equivs[i] < equivMax
    requires forall x :: 0 <= x < equivMax ==> count[x] == Count(other, x)
    requires forall k :: 0 <= k < changed.Length ==> !changed[k]
    modifies changed
    ensures RealIndexes(realindexes, |equivs|) && Picks(equivs, realindexes, undiscarded)
    ensures MarksAllBut(changed[..], realindexes) && !changed[0] && !changed[|equivs| + 1]
    ensures Discarded(equivs, other, discards, realindexes, minimal)
  {
    hide Guarded, Count, Picks, RealIndexes, Survives, RootByQuartering;
    var d, many := MarkDiscards(equivs, count);
    assert d[..] == Verdicts(equivs, other);
    CancelProvisional(d);
    undiscarded, realindexes := Collect(equivs, d, changed, minimal);
    discards := d[..];
  }

  /** Both files.  Each line that is left out is marked as changed; the others keep their line numbers. */
  method DiscardConfusingLines(equivs0: seq<int>, equivs1: seq<int>, equivMax: nat, changed0: array<bool>,
                               changed1: array<bool>, minimal: bool)
    returns (undiscarded0: seq<int>, real0: seq<int>, undiscarded1: seq<int>, real1: seq<int>,
             ghost discards0: seq<int>, ghost discards1: seq<int>)
    requires changed0 != changed1 && changed0.Length == |equivs0| + 2 && changed1.Length == |equivs1| + 2
    requires forall i :: 0 <= i < |equivs0| ==> 0 <= equivs0[i] < equivMax
    requires forall i :: 0 <= i < |equivs1| ==> 0 <= equivs1[i] < equivMax
    requires forall k :: 0 <= k < changed0.Length ==> !changed0[k]
    requires forall k :: 0 <= k < changed1.Length ==> !changed1[k]
    modifies changed0, changed1
    ensures RealIndexes(real0, |equivs0|) && Picks(equivs0, real0, undiscarded0) && MarksAllBut(changed0[..], real0)
    ensures RealIndexes(real1, |equivs1|) && Picks(equivs1, real1, undiscarded1) && MarksAllBut(changed1[..], real1)
    ensures !changed0[0] && !changed0[|equivs0| + 1] && !changed1[0] && !changed1[|equivs1| + 1]
    ensures Discarded(equivs0, equivs1, discards0, real0, minimal)
    ensures Discarded(equivs1, equivs0, discards1, real1, minimal)
  {
    hide Discarded, Picks, RealIndexes, MarksAllBut;
    var count0 := CountEquivs(equivs0, equivMax);
    var count1 := CountEquivs(equivs1, equivMax);
    undiscarded0, real0, discards0 := DiscardOne(equivs0, equivs1, equivMax, count1, changed0, minimal);
    undiscarded1, real1, discards1 := DiscardOne(equivs1, equivs0, equivMax, count0, changed1, minimal);
  }
}
