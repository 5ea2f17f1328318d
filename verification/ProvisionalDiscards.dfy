/**
  Cancelling provisional discards (the second part of `discard_confusing_lines`).

  A vector says of each line whether it is kept (0), discarded (1) or discarded provisionally (2).
 */
module ProvisionalDiscards {
  /** The power of two found by quartering n until nothing is left: the square root up to a factor of two. */
  ghost predicate NearRoot(root: int, n: int) {
    root >= 1 && (root == 1 || root * root <= n) && n < 4 * (root * root)
  }

  /** This power of two itself. */
  ghost function RootByQuartering(n: int): int
    decreases n
  {
    if n / 4 > 0 then 2 * RootByQuartering(n / 4) else 1
  }

  lemma Monotone(s: int, a: int, b: int)
    requires 0 <= s && a <= b
    ensures s * a <= s * b
  {
  }

  lemma FourTimes(s: int, t: int)
    ensures (4 * s) * t == s * (4 * t)
  {
  }

  /** One quartering step, where s is the power of four divided out so far. */
  lemma Quarter(s: int, tem: int, n: int)
    requires 1 <= s && 0 <= tem && s * tem <= n < s * (tem + 1)
    ensures (4 * s) * (tem / 4) <= n < (4 * s) * (tem / 4 + 1)
    ensures tem > 0 ==> s <= n
  {
    var t := tem / 4;
    Monotone(s, 4 * t, tem);
    Monotone(s, tem + 1, 4 * (t + 1));
    FourTimes(s, t);
    FourTimes(s, t + 1);
    if tem > 0 {
      Monotone(s, 1, tem);
    }
  }

  lemma Doubled(x: int)
    ensures (2 * x) * (2 * x) == 4 * (x * x) && (x >= 1 ==> x * x >= 1)
  {
  }

  lemma Associates(x: int, y: int)
    ensures x * (2 * (2 * y)) == (2 * x) * (2 * y) && x * (2 * 1) == 2 * x
  {
  }

  lemma {:induction false} RootIsNear(n: nat)
    ensures NearRoot(RootByQuartering(n), n)
    decreases n
  {
    if n / 4 > 0 {
      RootIsNear(n / 4);
      Doubled(RootByQuartering(n / 4));
    }
  }

  /** Every provisional discard of [lo, hi) has discarded lines of [lo, hi) on both sides. */
  ghost predicate Guarded(d: seq<int>, lo: int, hi: int) {
    0 <= lo <= hi <= |d| && forall k :: lo <= k < hi && d[k] == 2 ==>
      lo < k && k + 1 < hi && d[k - 1] != 0 && d[k + 1] != 0
  }

  /** Some provisional discards were cancelled, within [lo, hi); nothing else changed. */
  ghost predicate Cancelled(before: seq<int>, after: seq<int>, lo: int, hi: int) {
    && |before| == |after|
    && forall k :: 0 <= k < |before| ==> after[k] == before[k] || (before[k] == 2 && after[k] == 0 && lo <= k < hi)
  }

  ghost predicate ThreeValued(d: seq<int>) {
    forall k :: 0 <= k < |d| ==> 0 <= d[k] <= 2
  }

  /** The number of provisional discards in [lo, hi). */
  ghost function Twos(d: seq<int>, lo: int, hi: int): nat
    requires 0 <= lo <= hi <= |d|
    decreases hi - lo
  {
    if lo == hi then 0 else Twos(d, lo, hi - 1) + (if d[hi - 1] == 2 then 1 else 0)
  }

  lemma {:induction false} TwosDrop(d: seq<int>, lo: int, hi: int, k: int)
    requires 0 <= lo <= k < hi <= |d| && d[k] == 2
    ensures Twos(d[k := 0], lo, hi) == Twos(d, lo, hi) - 1
    decreases hi
  {
    if k < hi - 1 {
      TwosDrop(d, lo, hi - 1, k);
    } else {
      TwosSame(d, d[k := 0], lo, k);
    }
  }

  lemma {:induction false} TwosSame(d: seq<int>, e: seq<int>, lo: int, hi: int)
    requires 0 <= lo <= hi <= |d| && |e| == |d| && forall k :: lo <= k < hi ==> d[k] == e[k]
    ensures Twos(d, lo, hi) == Twos(e, lo, hi)
    decreases hi
  {
    if lo < hi {
      TwosSame(d, e, lo, hi - 1);
    }
  }

  /** The discards from line i on: a run up to t that ends nonprovisionally, and provisional ones behind it up to e. */
  ghost predicate Run(v: seq<int>, i: int, t: int, e: int) {
    && 0 <= i < t <= e <= |v| && v[i] == 1 && v[t - 1] == 1 && (forall k :: i <= k < t ==> v[k] != 0)
    && (forall k :: t <= k < e ==> v[k] == 2) && (e < |v| ==> v[e] == 0)
  }

  /** The run of discards from line i on, without provisional discards at its end. */
  method RunOfDiscards(d: array<int>, i: int) returns (j: int, provisional: int, ghost e: int)
    requires 0 <= i < d.Length && ThreeValued(d[..]) && d[i] == 1
    modifies d
    ensures Cancelled(old(d[..]), d[..], i, d.Length) && ThreeValued(d[..])
    ensures Run(old(d[..]), i, j, e)
    ensures forall k :: 0 <= k < d.Length ==> d[k] == if j <= k < e then 0 else old(d[..])[k]
    ensures provisional == Twos(old(d[..]), i, j)
  {
    j, provisional := i, 0;
    ghost var v := d[..];
    while j < d.Length
      invariant d[..] == v && i <= j <= d.Length && provisional == Twos(v, i, j)
      invariant forall k :: i <= k < j ==> v[k] != 0
    {
      if d[j] == 0 {
        break;
      }
      if d[j] == 2 {
        provisional := provisional + 1;
      }
      j := j + 1;
    }
    e := j;
    while j > i && d[j - 1] == 2
      invariant i < j <= e <= d.Length && Cancelled(v, d[..], i, d.Length) && ThreeValued(d[..]) && d[i] == 1
      invariant forall k :: i <= k < j ==> d[k] == v[k] && d[k] != 0
      invariant forall k :: j <= k < e ==> v[k] == 2 && d[k] == 0
      invariant forall k :: 0 <= k < d.Length && !(j <= k < e) ==> d[k] == v[k]
      invariant provisional == Twos(v, i, j)
    {
      j := j - 1;
      d[j] := 0;
      provisional := provisional - 1;
    }
  }

  method CancelAll(d: array<int>, i: int, j0: int)
    requires 0 <= i <= j0 <= d.Length && ThreeValued(d[..])
    modifies d
    ensures Cancelled(old(d[..]), d[..], i, j0) && ThreeValued(d[..])
    ensures forall k :: i <= k < j0 ==> d[k] != 2
  {
    var j := j0;
    while j > i
      invariant i <= j <= j0 && Cancelled(old(d[..]), d[..], i, j0) && ThreeValued(d[..])
      invariant forall k :: j <= k < j0 ==> d[k] != 2
    {
      j := j - 1;
      if d[j] == 2 {
        d[j] := 0;
      }
    }
  }

  /** One more than roughly the square root of a quarter of the length. */
  method Minimum(length: nat) returns (minimum: nat)
    ensures minimum >= 2 && minimum == 1 + RootByQuartering(length / 4) && NearRoot(minimum - 1, length / 4)
  {
    minimum := 1;
    var tem := length / 4;
    Quarter(1, tem, length / 4);
    tem := tem / 4;
    ghost var square := 1;
    while tem > 0
      invariant 1 <= minimum && 0 <= tem && square == minimum * minimum >= 1 && (minimum == 1 || square <= length / 4)
      invariant RootByQuartering(length / 4) == if tem > 0 then minimum * (2 * RootByQuartering(tem)) else minimum
      invariant (4 * square) * tem <= length / 4 < (4 * square) * (tem + 1)
    {
      Quarter(4 * square, tem, length / 4);
      Doubled(minimum);
      Associates(minimum, RootByQuartering(tem / 4));
      minimum, square := minimum * 2, 4 * square;
      tem := tem / 4;
    }
    minimum := minimum + 1;
  }

  /**
    The state of the subrun loop at line `at` of the run [i, hi).  While fewer than `minimum`
    provisional discards have been counted in a row, nothing is half cancelled; from `minimum` on the
    loop is cancelling the subrun that starts at `at + minimum - consec`.
   */
  ghost predicate Subruns(v: seq<int>, i: int, hi: int, at: int, consec: int, minimum: int) {
    && 0 <= i <= at <= hi <= |v| && i < hi && 0 <= consec && v[i] == 1 && v[hi - 1] == 1
    && (forall k :: at <= k < hi ==> v[k] != 0)
    && (at == hi ==> consec == 0)
    && (consec == minimum ==> at < hi && v[at] == 2)
    && if consec < minimum then
         && consec <= at - i && Guarded(v, i, hi)
         && (forall k :: at - consec <= k < at ==> v[k] == 2)
         && (at - consec > i ==> v[at - consec - 1] != 2)
       else
         var start := at + minimum - consec;
         && i < start <= at && v[start - 1] == 1
         && (forall k :: i <= k < start && v[k] == 2 ==> i < k && v[k - 1] != 0 && v[k + 1] != 0)
         && (forall k :: start <= k < at ==> v[k] == 0)
  }

  /** No `minimum` provisional discards stand in a row within [i, at). */
  ghost predicate NoLongSubrun(v: seq<int>, i: int, at: int, minimum: int) {
    0 <= i <= at <= |v| && forall k {:trigger Broken(v, k, minimum)} :: i <= k && k + minimum <= at ==>
      Broken(v, k, minimum)
  }

  ghost predicate Broken(v: seq<int>, k: int, length: int) {
    exists m :: k <= m < k + length && 0 <= m < |v| && v[m] != 2
  }

  lemma SubrunEnds(v: seq<int>, i: int, hi: int, at: int, consec: int, minimum: int)
    requires Subruns(v, i, hi, at, consec, minimum) && minimum >= 2 && at < hi && v[at] != 2
    ensures Subruns(v, i, hi, at + 1, 0, minimum) && consec != minimum
    ensures NoLongSubrun(v, i, at, minimum) ==> NoLongSubrun(v, i, at + 1, minimum)
  {
    assert Broken(v, at + 1 - minimum, minimum);
  }

  lemma SubrunGrows(v: seq<int>, i: int, hi: int, at: int, consec: int, minimum: int)
    requires Subruns(v, i, hi, at, consec, minimum) && minimum >= 2 && at < hi && v[at] == 2 && consec + 1 < minimum
    ensures Subruns(v, i, hi, at + 1, consec + 1, minimum)
    ensures NoLongSubrun(v, i, at, minimum) ==> NoLongSubrun(v, i, at + 1, minimum)
  {
    if NoLongSubrun(v, i, at, minimum) && i <= at + 1 - minimum {
      assert v[at - consec - 1] != 2;
      assert Broken(v, at + 1 - minimum, minimum);
    }
  }

  /** The count has reached the minimum: back to the start of the subrun. */
  lemma SubrunFound(v: seq<int>, i: int, hi: int, at: int, consec: int, minimum: int)
    requires Subruns(v, i, hi, at, consec, minimum) && minimum >= 2 && at < hi && v[at] == 2 && consec + 1 == minimum
    requires forall k :: 0 <= k < |v| ==> 0 <= v[k] <= 2
    ensures i <= at + 1 - minimum && Subruns(v, i, hi, at + 1 - minimum, minimum, minimum)
    ensures NoLongSubrun(v, i, at, minimum) ==> NoLongSubrun(v, i, at + 1 - minimum, minimum)
  {
  }

  /** The line after the start of a found subrun is cancelled in turn. */
  lemma SubrunCancels(v: seq<int>, i: int, hi: int, at: int, consec: int, minimum: int)
    requires Subruns(v, i, hi, at, consec, minimum) && minimum >= 2 && at < hi && v[at] == 2 && consec >= minimum
    ensures Subruns(v[at := 0], i, hi, at + 1, consec + 1, minimum)
    ensures NoLongSubrun(v, i, at, minimum) ==> NoLongSubrun(v[at := 0], i, at + 1, minimum)
  {
    var w := v[at := 0];
    forall k {:trigger Broken(w, k, minimum)} | i <= k && k + minimum <= at + 1 && NoLongSubrun(v, i, at, minimum)
      ensures Broken(w, k, minimum)
    {
      if k + minimum == at + 1 {
        assert w[at] != 2;
      } else {
        assert Broken(v, k, minimum);
        var m :| k <= m < k + minimum && 0 <= m < |v| && v[m] != 2;
        assert w[m] != 2;
      }
    }
  }

  ghost predicate AllTwo(v: seq<int>, s: int, length: int) {
    0 <= s && s + length <= |v| && forall m :: s <= m < s + length ==> v[m] == 2
  }

  /** Line k belongs to `minimum` provisional discards in a row within [i, hi). */
  ghost predicate InLongSubrun(v: seq<int>, i: int, hi: int, k: int, minimum: int) {
    exists s :: i <= s <= k < s + minimum <= hi && AllTwo(v, s, minimum)
  }

  /** Before line `upTo` exactly the long subruns of v0 are cancelled. */
  ghost predicate LongCancelled(v0: seq<int>, v: seq<int>, i: int, upTo: int, hi: int, minimum: int) {
    && |v| == |v0| && 0 <= i <= upTo <= hi <= |v|
    && forall k :: i <= k < upTo ==> (v[k] == 2 <==> v0[k] == 2 && !InLongSubrun(v0, i, hi, k, minimum))
  }

  /** What the subrun loop has cancelled when it is at line `at`. */
  ghost predicate SubrunsExact(v0: seq<int>, v: seq<int>, i: int, hi: int, at: int, consec: int, minimum: int) {
    && |v| == |v0| && 0 <= i <= at <= hi <= |v| && 0 <= consec
    && if consec < minimum then
         && consec <= at - i && LongCancelled(v0, v, i, at - consec, hi, minimum)
         && (forall k :: at - consec <= k < hi ==> v[k] == v0[k])
         && (forall k :: at - consec <= k < at ==> v0[k] == 2) && (at - consec > i ==> v0[at - consec - 1] != 2)
       else
         var start := at + minimum - consec;
         && i < start <= at && start + minimum <= hi && LongCancelled(v0, v, i, start, hi, minimum)
         && v0[start - 1] != 2 && AllTwo(v0, start, minimum)
         && (forall k :: at <= k < hi ==> v[k] == v0[k]) && (forall k :: start <= k < at ==> v0[k] == 2 && v[k] == 0)
  }

  lemma ExactEnds(v0: seq<int>, v: seq<int>, i: int, hi: int, at: int, consec: int, minimum: int)
    requires SubrunsExact(v0, v, i, hi, at, consec, minimum) && minimum >= 2 && at < hi && v[at] != 2
    ensures SubrunsExact(v0, v, i, hi, at + 1, 0, minimum)
  {
    if consec < minimum {
      forall k | at - consec <= k < at
        ensures !InLongSubrun(v0, i, hi, k, minimum)
      {
        ShortSubrun(v0, i, hi, at - consec, at, k, minimum);
      }
    } else {
      var start := at + minimum - consec;
      assert at >= start + minimum;
      forall k | start <= k < at
        ensures InLongSubrun(v0, i, hi, k, minimum)
      {
        var s := if k <= at - minimum then k else at - minimum;
        assert AllTwo(v0, s, minimum);
      }
    }
  }

  lemma ShortSubrun(v0: seq<int>, i: int, hi: int, lo: int, at: int, k: int, minimum: int)
    requires 0 <= i <= lo <= k < at < hi <= |v0| && at - lo < minimum && v0[at] != 2 && (lo > i ==> v0[lo - 1] != 2)
    ensures !InLongSubrun(v0, i, hi, k, minimum)
  {
    if InLongSubrun(v0, i, hi, k, minimum) {
      assert false;
    }
  }

  lemma ExactGrows(v0: seq<int>, v: seq<int>, i: int, hi: int, at: int, consec: int, minimum: int)
    requires SubrunsExact(v0, v, i, hi, at, consec, minimum) && at < hi && v[at] == 2 && consec + 1 < minimum
    ensures SubrunsExact(v0, v, i, hi, at + 1, consec + 1, minimum)
  {
    hide InLongSubrun;
  }

  lemma ExactFound(v0: seq<int>, v: seq<int>, i: int, hi: int, at: int, consec: int, minimum: int)
    requires SubrunsExact(v0, v, i, hi, at, consec, minimum) && minimum >= 2 && at < hi && v[at] == 2
    requires consec + 1 == minimum && v0[i] == 1
    ensures SubrunsExact(v0, v, i, hi, at + 1 - minimum, minimum, minimum)
  {
    hide InLongSubrun;
  }

  lemma ExactCancels(v0: seq<int>, v: seq<int>, i: int, hi: int, at: int, consec: int, minimum: int)
    requires SubrunsExact(v0, v, i, hi, at, consec, minimum) && minimum >= 2 && at < hi && v[at] == 2
    requires consec >= minimum
    ensures SubrunsExact(v0, v[at := 0], i, hi, at + 1, consec + 1, minimum)
  {
    hide InLongSubrun;
  }

  lemma ExactStart(v0: seq<int>, i: int, hi: int, minimum: int)
    requires 0 <= i <= hi <= |v0| && minimum >= 2
    ensures SubrunsExact(v0, v0, i, hi, i, 0, minimum)
  {
  }

  lemma ExactDone(v0: seq<int>, v: seq<int>, i: int, hi: int, consec: int, minimum: int)
    requires SubrunsExact(v0, v, i, hi, hi, consec, minimum) && Subruns(v, i, hi, hi, consec, minimum) && minimum >= 2
    ensures LongCancelled(v0, v, i, hi, hi, minimum)
  {
    hide InLongSubrun;
  }

  /**
    Cancels every subrun of `minimum` or more provisional discards in the run [i, i + length).  The
    loop backs up its own index when a subrun turns out to be that long; it still ends, because every
    back-up is followed by a cancellation.
   */
  method CancelSubruns(d: array<int>, i: int, length: int, minimum: nat)
    requires 0 <= i && 0 < length && i + length <= d.Length && ThreeValued(d[..]) && minimum >= 2
    requires d[i] == 1 && d[i + length - 1] == 1 && forall k :: i <= k < i + length ==> d[k] != 0
    modifies d
    ensures Cancelled(old(d[..]), d[..], i, i + length) && ThreeValued(d[..])
    ensures Guarded(d[..], i, i + length) && NoLongSubrun(d[..], i, i + length, minimum)
    ensures LongCancelled(old(d[..]), d[..], i, i + length, i + length, minimum)
  {
    hide SubrunState, Cancelled, NoLongSubrun, Guarded, Twos, LongCancelled;
    var j, consec := 0, 0;
    ghost var v, hi := d[..], i + length;
    StateStart(v, i, hi, minimum);
    while j < length
      invariant 0 <= j <= length && SubrunState(v, d[..], i, hi, i + j, consec, minimum)
      decreases Twos(d[..], i, hi), if consec == minimum then 0 else 1, length - j
    {
      ghost var w := d[..];
      StateNext(v, w, i, hi, i + j, consec, minimum);
      if d[i + j] != 2 {
        consec := 0;
      } else {
        consec := consec + 1;
        if minimum == consec {
          j := j - consec;
        } else if minimum < consec {
          TwosDrop(w, i, hi, i + j);
          d[i + j] := 0;
          assert d[..] == w[i + j := 0];
        }
      }
      j := j + 1;
    }
    StateDone(v, d[..], i, hi, consec, minimum);
  }

  /** All that the subrun loop keeps. */
  ghost predicate SubrunState(v: seq<int>, w: seq<int>, i: int, hi: int, at: int, consec: int, minimum: int) {
    && 0 <= i <= at <= hi <= |v| && i < hi && 0 <= consec && 2 <= minimum && ThreeValued(v) && v[i] == 1
    && ThreeValued(w) && Cancelled(v, w, i, hi) && Subruns(w, i, hi, at, consec, minimum)
    && NoLongSubrun(w, i, at, minimum) && SubrunsExact(v, w, i, hi, at, consec, minimum)
  }

  lemma StateStart(v: seq<int>, i: int, hi: int, minimum: int)
    requires 0 <= i < hi <= |v| && minimum >= 2 && ThreeValued(v) && v[i] == 1 && v[hi - 1] == 1
    requires forall k :: i <= k < hi ==> v[k] != 0
    ensures SubrunState(v, v, i, hi, i, 0, minimum)
  {
    hide Subruns, SubrunsExact, NoLongSubrun;
    SubrunsStart(v, i, hi, minimum);
    ExactStart(v, i, hi, minimum);
  }

  /** What one step of the loop does to the state. */
  lemma StateNext(v: seq<int>, w: seq<int>, i: int, hi: int, at: int, consec: int, minimum: int)
    requires SubrunState(v, w, i, hi, at, consec, minimum) && at < hi
    ensures 0 <= i <= at < |w| && 0 <= consec && |w| == |v|
    ensures w[at] != 2 ==> consec != minimum && SubrunState(v, w, i, hi, at + 1, 0, minimum)
    ensures w[at] == 2 && consec + 1 < minimum ==> SubrunState(v, w, i, hi, at + 1, consec + 1, minimum)
    ensures w[at] == 2 && consec + 1 == minimum ==>
              i <= at + 1 - minimum && SubrunState(v, w, i, hi, at + 1 - minimum, minimum, minimum)
    ensures w[at] == 2 && consec >= minimum ==> SubrunState(v, w[at := 0], i, hi, at + 1, consec + 1, minimum)
  {
    hide Subruns, SubrunsExact, NoLongSubrun;
    if w[at] != 2 {
      SubrunEnds(w, i, hi, at, consec, minimum);
      ExactEnds(v, w, i, hi, at, consec, minimum);
    } else if consec + 1 < minimum {
      SubrunGrows(w, i, hi, at, consec, minimum);
      ExactGrows(v, w, i, hi, at, consec, minimum);
    } else if consec + 1 == minimum {
      SubrunFound(w, i, hi, at, consec, minimum);
      ExactFound(v, w, i, hi, at, consec, minimum);
    } else {
      SubrunCancels(w, i, hi, at, consec, minimum);
      ExactCancels(v, w, i, hi, at, consec, minimum);
    }
  }

  lemma StateDone(v: seq<int>, w: seq<int>, i: int, hi: int, consec: int, minimum: int)
    requires SubrunState(v, w, i, hi, hi, consec, minimum)
    ensures ThreeValued(w) && Cancelled(v, w, i, hi) && Guarded(w, i, hi) && NoLongSubrun(w, i, hi, minimum)
    ensures LongCancelled(v, w, i, hi, hi, minimum)
  {
    hide Subruns, SubrunsExact, NoLongSubrun, Guarded, LongCancelled;
    SubrunsDone(w, i, hi, consec, minimum);
    ExactDone(v, w, i, hi, consec, minimum);
  }

  lemma SubrunsStart(v: seq<int>, i: int, hi: int, minimum: int)
    requires 0 <= i < hi <= |v| && minimum >= 2 && v[i] == 1 && v[hi - 1] == 1 && forall k :: i <= k < hi ==> v[k] != 0
    ensures Subruns(v, i, hi, i, 0, minimum) && NoLongSubrun(v, i, i, minimum)
  {
  }

  lemma SubrunsDone(v: seq<int>, i: int, hi: int, consec: int, minimum: int)
    requires minimum >= 2 && Subruns(v, i, hi, hi, consec, minimum)
    ensures Guarded(v, i, hi)
  {
  }

  // ----- cancelling near the ends of a run

  /** Counted from line i, a nonprovisional discard at least 8 lines in, or the third one in a row. */
  ghost predicate Anchor(v: seq<int>, i: int, p: int) {
    0 <= i <= p < |v| && v[p] == 1 && (p - i >= 8 || (p - i >= 2 && v[p - 1] == 1 && v[p - 2] == 1))
  }

  /** Such a line stands before line k. */
  ghost predicate Anchored(v: seq<int>, i: int, k: int) {
    exists p :: i <= p < k && Anchor(v, i, p)
  }

  /** The same from the other end, whose last line is `last`. */
  ghost predicate AnchorBehind(v: seq<int>, last: int, p: int) {
    0 <= p <= last < |v| && v[p] == 1 && (last - p >= 8 || (last - p >= 2 && v[p + 1] == 1 && v[p + 2] == 1))
  }

  ghost predicate AnchoredBehind(v: seq<int>, last: int, k: int) {
    exists p :: k < p <= last && AnchorBehind(v, last, p)
  }

  /** The last `consec` lines before `at` are nonprovisional discards, and no more. */
  ghost predicate OnesBefore(v: seq<int>, i: int, at: int, consec: int) {
    && 0 <= consec <= at - i && 0 <= i && at <= |v| && (forall k :: at - consec <= k < at ==> v[k] == 1)
    && (consec < at - i ==> v[at - consec - 1] != 1)
  }

  ghost predicate OnesBehind(v: seq<int>, last: int, at: int, consec: int) {
    && 0 <= consec <= last - at && last < |v| && -1 <= at && (forall k :: at < k <= at + consec ==> v[k] == 1)
    && (consec < last - at ==> v[at + consec + 1] != 1)
  }

  lemma NoOnes(v: seq<int>, i: int)
    requires 0 <= i < |v|
    ensures OnesBefore(v, i, i, 0) && OnesBehind(v, i, i, 0)
  {
  }

  lemma AnchorNext(v: seq<int>, i: int, at: int, consec: int)
    requires OnesBefore(v, i, at, consec) && consec < 3 && at < |v|
    ensures Anchor(v, i, at) <==> v[at] == 1 && (at - i >= 8 || consec == 2)
    ensures OnesBefore(v, i, at + 1, if v[at] == 1 then consec + 1 else 0)
  {
  }

  lemma AnchorBehindNext(v: seq<int>, last: int, at: int, consec: int)
    requires OnesBehind(v, last, at, consec) && consec < 3 && 0 <= at
    ensures AnchorBehind(v, last, at) <==> v[at] == 1 && (last - at >= 8 || consec == 2)
    ensures OnesBehind(v, last, at - 1, if v[at] == 1 then consec + 1 else 0)
  {
  }

  /** Cancels provisional discards at the beginning of the run [i, i + length). */
  method CancelAtStart(d: array<int>, i: int, length: int)
    requires 0 <= i && 0 < length && i + length <= d.Length && ThreeValued(d[..])
    requires d[i] == 1 && d[i + length - 1] == 1 && Guarded(d[..], i, i + length)
    modifies d
    ensures Cancelled(old(d[..]), d[..], i, i + length) && ThreeValued(d[..])
    ensures Guarded(d[..], i, i + length)
    ensures forall k :: i <= k < i + 3 && k < i + length ==> d[k] != 2
    ensures forall k :: i <= k < i + length ==> (d[k] == 2 <==> old(d[..])[k] == 2 && Anchored(old(d[..]), i, k))
  {
    hide Guarded, Anchor, OnesBefore;
    NoOnes(d[..], i);
    var j, consec := 0, 0;
    ghost var v := d[..];
    while j < length
      invariant 0 <= j <= length && 0 <= consec < 3 && consec <= j && ThreeValued(d[..])
      invariant Cancelled(v, d[..], i, i + j)
      invariant forall k :: i <= k < i + j ==> d[k] != 2
      invariant OnesBefore(v, i, i + j, consec) && forall p :: i <= p < i + j ==> !Anchor(v, i, p)
      decreases length - j
    {
      AnchorNext(v, i, i + j, consec);
      if j >= 8 && d[i + j] == 1 {
        break;
      }
      if d[i + j] == 2 {
        consec := 0;
        d[i + j] := 0;
      } else if d[i + j] == 0 {
        consec := 0;
      } else {
        consec := consec + 1;
      }
      if consec == 3 {
        break;
      }
      j := j + 1;
    }
    assert j < length ==> Anchor(v, i, i + j);
    GuardedAfterStart(v, d[..], i, i + length, i + j);
  }

  lemma GuardedAfterStart(v: seq<int>, w: seq<int>, lo: int, hi: int, at: int)
    requires Guarded(v, lo, hi) && lo <= at <= hi && Cancelled(v, w, lo, at)
    requires forall k :: lo <= k < at ==> w[k] != 2
    requires at < hi ==> w[at] == 1
    ensures Guarded(w, lo, hi)
  {
  }

  /** The same from the end of the run, whose last line is `last`. */
  method CancelAtEnd(d: array<int>, last: int, length: int)
    requires 0 < length && 0 <= last - length + 1 && last < d.Length && ThreeValued(d[..])
    requires d[last] == 1 && Guarded(d[..], last - length + 1, last + 1)
    modifies d
    ensures Cancelled(old(d[..]), d[..], last - length + 1, last + 1) && ThreeValued(d[..])
    ensures Guarded(d[..], last - length + 1, last + 1)
    ensures forall k :: last - 2 <= k <= last && last - length < k ==> d[k] != 2
    ensures forall k :: last - length < k <= last ==>
              (d[k] == 2 <==> old(d[..])[k] == 2 && AnchoredBehind(old(d[..]), last, k))
  {
    hide Guarded, AnchorBehind, OnesBehind;
    NoOnes(d[..], last);
    var j, consec := 0, 0;
    ghost var v := d[..];
    while j < length
      invariant 0 <= j <= length && 0 <= consec < 3 && consec <= j && ThreeValued(d[..])
      invariant Cancelled(v, d[..], last - j + 1, last + 1)
      invariant forall k :: last - j < k <= last ==> d[k] != 2
      invariant OnesBehind(v, last, last - j, consec) && forall p :: last - j < p <= last ==> !AnchorBehind(v, last, p)
      decreases length - j
    {
      AnchorBehindNext(v, last, last - j, consec);
      if j >= 8 && d[last - j] == 1 {
        break;
      }
      if d[last - j] == 2 {
        consec := 0;
        d[last - j] := 0;
      } else if d[last - j] == 0 {
        consec := 0;
      } else {
        consec := consec + 1;
      }
      if consec == 3 {
        break;
      }
      j := j + 1;
    }
    assert j < length ==> AnchorBehind(v, last, last - j);
    GuardedAfterEnd(v, d[..], last - length + 1, last + 1, last - j);
  }

  lemma GuardedAfterEnd(v: seq<int>, w: seq<int>, lo: int, hi: int, at: int)
    requires Guarded(v, lo, hi) && lo - 1 <= at < hi && Cancelled(v, w, at + 1, hi)
    requires forall k :: at < k < hi ==> w[k] != 2
    requires lo <= at ==> w[at] == 1
    ensures Guarded(w, lo, hi)
  {
  }

  // ----- which provisional discards survive

  /** Provisional discard k of the run [i, t) is not cancelled. */
  ghost predicate Stays(v: seq<int>, i: int, t: int, k: int) {
    && 0 <= i <= k < t <= |v| && v[k] == 2 && Twos(v, i, t) * 4 <= t - i
    && !InLongSubrun(v, i, t, k, 1 + RootByQuartering((t - i) / 4))
    && Anchored(v, i, k) && AnchoredBehind(v, t - 1, k)
  }

  /** Cancelling provisional discards moves no anchor. */
  lemma SameAnchors(v: seq<int>, w: seq<int>, i: int, last: int, k: int)
    requires |w| == |v| && forall p :: 0 <= p < |v| && i <= p <= last ==> (v[p] == 1 <==> w[p] == 1)
    requires 0 <= i <= k <= last < |v|
    ensures Anchored(v, i, k) <==> Anchored(w, i, k)
    ensures AnchoredBehind(v, last, k) <==> AnchoredBehind(w, last, k)
  {
    forall p | i <= p <= last
      ensures Anchor(v, i, p) <==> Anchor(w, i, p)
    {
    }
    forall p | k < p <= last
      ensures AnchorBehind(v, last, p) <==> AnchorBehind(w, last, p)
    {
    }
  }

  /** The three passes over a run together. */
  lemma PassesKeep(v: seq<int>, w: seq<int>, x: seq<int>, y: seq<int>, i: int, t: int, minimum: int)
    requires 0 <= i < t <= |v| && |w| == |v| && minimum == 1 + RootByQuartering((t - i) / 4)
    requires Twos(v, i, t) * 4 <= t - i
    requires Cancelled(v, w, i, t) && Cancelled(w, x, i, t) && Cancelled(x, y, i, t)
    requires LongCancelled(v, w, i, t, t, minimum)
    requires forall k :: i <= k < t ==> (x[k] == 2 <==> w[k] == 2 && Anchored(w, i, k))
    requires forall k :: i <= k < t ==> (y[k] == 2 <==> x[k] == 2 && AnchoredBehind(x, t - 1, k))
    ensures forall k :: i <= k < t ==> (y[k] == 2 <==> Stays(v, i, t, k))
  {
    hide InLongSubrun, Anchored, AnchoredBehind, RootByQuartering, Twos;
    forall k | i <= k < t
      ensures y[k] == 2 <==> Stays(v, i, t, k)
    {
      SameAnchors(v, w, i, t - 1, k);
      SameAnchors(v, x, i, t - 1, k);
    }
  }

  /** The three passes over the run [i, t). */
  method CancelInRun(d: array<int>, i: int, t: int)
    requires 0 <= i < t <= d.Length && ThreeValued(d[..]) && d[i] == 1 && d[t - 1] == 1
    requires (forall k :: i <= k < t ==> d[k] != 0) && Twos(d[..], i, t) * 4 <= t - i
    modifies d
    ensures ThreeValued(d[..]) && Cancelled(old(d[..]), d[..], i, t) && Guarded(d[..], i, t)
    ensures forall k :: i <= k < t ==> (d[k] == 2 <==> Stays(old(d[..]), i, t, k))
  {
    hide LongCancelled, Anchored, AnchoredBehind, InLongSubrun, RootByQuartering, Twos, Guarded, NoLongSubrun, Stays;
    ghost var v := d[..];
    var minimum := Minimum(t - i);
    CancelSubruns(d, i, t - i, minimum);
    ghost var w := d[..];
    CancelAtStart(d, i, t - i);
    ghost var x := d[..];
    CancelAtEnd(d, t - 1, t - i);
    PassesKeep(v, w, x, d[..], i, t, minimum);
  }

  /** What one run of discards has become; i is its last line that was looked at. */
  ghost predicate Processed(v: seq<int>, d: seq<int>, i0: int, i: int, t: int, e: int) {
    && Run(v, i0, t, e) && |d| == |v| && i0 <= i < t && (forall k :: i < k < e ==> d[k] != 2)
    && (forall k :: 0 <= k < |v| && !(i0 <= k < e) ==> d[k] == v[k])
    && (forall k :: i0 <= k < e ==> (d[k] == 2 <==> Stays(v, i0, t, k)))
  }

  /**
    One run of discards, from its first line i0; returns the line to go on from.  Exactly those provisional
    discards survive that are rare in the run, stand in no long subrun, and have anchors on both sides.
   */
  method ProcessRun(d: array<int>, i0: int) returns (i: int, ghost t: int, ghost e: int)
    requires 0 <= i0 < d.Length && ThreeValued(d[..]) && d[i0] == 1 && Guarded(d[..], 0, i0)
    modifies d
    ensures i0 <= i < d.Length && ThreeValued(d[..]) && Cancelled(old(d[..]), d[..], i0, d.Length)
    ensures Guarded(d[..], 0, i + 1)
    ensures Processed(old(d[..]), d[..], i0, i, t, e)
  {
    hide Guarded, Twos, Stays, Processed, Cancelled;
    ghost var v0 := d[..];
    i := i0;
    var j, provisional;
    j, provisional, e := RunOfDiscards(d, i);
    t := j;
    var length := j - i;
    ghost var v := d[..];
    TwosSame(v0, v, i0, t);
    if provisional * 4 > length {
      CancelAll(d, i, j);
      NoneStays(v0, v, d[..], i0, t, e);
    } else {
      CancelInRun(d, i, j);
      SomeStay(v0, v, d[..], i0, t, e);
      i := i + length - 1;
    }
    RunGuarded(v0, v, d[..], i0, i, t);
  }

  lemma NoneStays(v0: seq<int>, v: seq<int>, d: seq<int>, i0: int, t: int, e: int)
    requires Run(v0, i0, t, e) && |v| == |v0| && Twos(v0, i0, t) * 4 > t - i0
    requires forall k :: 0 <= k < |v| ==> v[k] == if t <= k < e then 0 else v0[k]
    requires Cancelled(v, d, i0, t) && forall k :: i0 <= k < t ==> d[k] != 2
    ensures Processed(v0, d, i0, i0, t, e)
  {
    hide Twos;
  }

  lemma SomeStay(v0: seq<int>, v: seq<int>, d: seq<int>, i0: int, t: int, e: int)
    requires Run(v0, i0, t, e) && |v| == |v0|
    requires forall k :: 0 <= k < |v| ==> v[k] == if t <= k < e then 0 else v0[k]
    requires Cancelled(v, d, i0, t) && forall k :: i0 <= k < t ==> (d[k] == 2 <==> Stays(v, i0, t, k))
    ensures Processed(v0, d, i0, t - 1, t, e)
  {
    hide Twos, Anchored, AnchoredBehind, InLongSubrun, RootByQuartering;
    forall k | i0 <= k < t
      ensures Stays(v, i0, t, k) <==> Stays(v0, i0, t, k)
    {
      StaysSame(v, v0, i0, t, k);
    }
  }

  lemma RunGuarded(v0: seq<int>, v: seq<int>, d: seq<int>, i0: int, i: int, t: int)
    requires Guarded(v0, 0, i0) && Cancelled(v0, v, i0, |v0|) && Cancelled(v, d, i0, t) && i0 <= i < t <= |v0|
    requires (i == i0 && d[i0] != 2) || (i == t - 1 && Guarded(d, i0, t))
    ensures Cancelled(v0, d, i0, |v0|) && Guarded(d, 0, i + 1)
  {
  }

  /** Only the lines of the run count. */
  lemma StaysSame(v: seq<int>, w: seq<int>, i: int, t: int, k: int)
    requires 0 <= i <= k < t <= |v| == |w| && forall m :: i <= m < t ==> v[m] == w[m]
    ensures Stays(v, i, t, k) <==> Stays(w, i, t, k)
  {
    hide RootByQuartering, Twos, Anchored, AnchoredBehind;
    TwosSame(v, w, i, t);
    SameAnchors(v, w, i, t - 1, k);
    var minimum := 1 + RootByQuartering((t - i) / 4);
    forall s | i <= s && s + minimum <= t
      ensures AllTwo(v, s, minimum) <==> AllTwo(w, s, minimum)
    {
    }
  }

  // ----- the whole vector

  /** Only provisional discards stand between line i and the last line before it that is kept. */
  ghost predicate LeadIn(v: seq<int>, i: int) {
    0 <= i <= |v| && exists s :: 0 <= s <= i && LeadFrom(v, s, i)
  }

  ghost predicate LeadFrom(v: seq<int>, s: int, i: int) {
    0 <= s <= i <= |v| && (s > 0 ==> v[s - 1] == 0) && forall k :: s <= k < i ==> v[k] == 2
  }

  /** A run of discards between lines that are kept, without the provisional discards at its ends. */
  ghost predicate Core(v: seq<int>, i: int, t: int) {
    LeadIn(v, i) && exists e :: t <= e <= |v| && Run(v, i, t, e)
  }

  /** Exactly the provisional discards that stay in their run survive. */
  ghost predicate Survives(v: seq<int>, k: int) {
    exists i, t :: Core(v, i, t) && Stays(v, i, t, k)
  }

  /** A line lies in one run only. */
  lemma CoreUnique(v: seq<int>, i: int, t: int, e: int, x: int, y: int, k: int)
    requires LeadIn(v, i) && Run(v, i, t, e) && Core(v, x, y) && x <= k < y && i <= k < e
    ensures x == i && y == t
  {
    var z :| y <= z <= |v| && Run(v, x, y, z);
    SameStart(v, i, e, x, z, k);
    SameStart(v, x, z, i, e, k);
    assert v[t - 1] == 1 && v[y - 1] == 1 && (z < |v| ==> v[z] == 0) && (e < |v| ==> v[e] == 0);
  }

  lemma SameStart(v: seq<int>, i: int, e: int, x: int, z: int, k: int)
    requires LeadIn(v, x) && 0 <= i <= k < e <= |v| && x <= k < z <= |v| && 0 <= x && v[i] == 1
    requires forall m :: i <= m < e ==> v[m] != 0
    ensures x <= i
  {
    var s :| 0 <= s <= x && LeadFrom(v, s, x);
  }

  /** No run holds line i when only provisional discards lead to it and it is one itself. */
  lemma NotInCore(v: seq<int>, i: int)
    requires LeadIn(v, i) && i < |v| && v[i] == 2
    ensures !Survives(v, i) && LeadIn(v, i + 1)
  {
    var s :| 0 <= s <= i && LeadFrom(v, s, i);
    assert LeadFrom(v, s, i + 1);
    forall x, y | Core(v, x, y) && x <= i < y
      ensures false
    {
      assert false;
    }
  }

  /** What the pass over the vector has decided at line i: everything before line u. */
  ghost predicate Decided(v: seq<int>, d: seq<int>, i: int, u: int) {
    && |d| == |v| && 0 <= i <= u <= |v|
    && (forall k :: 0 <= k < u ==> (d[k] == 2 <==> Survives(v, k)))
    && (forall k :: u <= k < |v| ==> d[k] == v[k])
    && (forall k :: i <= k < u ==> d[k] != 2) && (i < u < |v| ==> d[u] == 0)
    && (i == u && i < |v| && v[i] != 0 ==> LeadIn(v, i))
  }

  lemma DecidedStart(v: seq<int>)
    ensures Decided(v, v, 0, 0)
  {
    assert LeadFrom(v, 0, 0);
  }

  /** The next line is kept or a provisional discard. */
  lemma DecidedNext(v: seq<int>, d: seq<int>, i: int, u: int)
    requires Decided(v, d, i, u) && i < |v| && d[i] != 1 && ThreeValued(d)
    ensures Decided(v, d[i := 0], i + 1, if i < u then u else i + 1)
  {
    hide Survives, LeadIn;
    if i == u {
      if v[i] == 2 {
        NotInCore(v, i);
      } else {
        NoLeadNeeded(v, i);
      }
    } else if i + 1 == u && u < |v| {
      assert v[u] == 0;
    }
  }

  lemma NoLeadNeeded(v: seq<int>, i: int)
    requires 0 <= i < |v| && v[i] == 0
    ensures LeadIn(v, i + 1) && !Survives(v, i)
  {
    assert LeadFrom(v, i + 1, i + 1);
  }

  /** A run of undecided lines. */
  lemma DecidedRun(v: seq<int>, d: seq<int>, after: seq<int>, i0: int, i: int, t: int, e: int)
    requires Decided(v, d, i0, i0) && Processed(d, after, i0, i, t, e)
    ensures Decided(v, after, i + 1, e)
  {
    hide LeadIn, Stays;
    assert Run(v, i0, t, e) && LeadIn(v, i0) && Core(v, i0, t);
    forall k | i0 <= k < e
      ensures after[k] == 2 <==> Survives(v, k)
    {
      InThisRun(v, d, i0, t, e, k);
    }
  }

  lemma InThisRun(v: seq<int>, d: seq<int>, i: int, t: int, e: int, k: int)
    requires Core(v, i, t) && LeadIn(v, i) && Run(v, i, t, e) && i <= k < e && |d| == |v|
    requires forall m :: i <= m < |v| ==> d[m] == v[m]
    ensures Survives(v, k) <==> Stays(d, i, t, k)
  {
    hide Core, LeadIn, Run;
    if Stays(d, i, t, k) {
      StaysSame(v, d, i, t, k);
    }
    if Survives(v, k) {
      var x, y :| Core(v, x, y) && Stays(v, x, y, k);
      CoreUnique(v, i, t, e, x, y, k);
      RunBounds(v, i, t, e);
      StaysSame(v, d, i, t, k);
    }
  }

  lemma RunBounds(v: seq<int>, i: int, t: int, e: int)
    requires Run(v, i, t, e)
    ensures 0 <= i < t <= e <= |v|
  {
  }

  /** A run inside lines that are decided: nothing is left to cancel. */
  lemma DecidedAgain(v: seq<int>, d: seq<int>, after: seq<int>, i0: int, u: int, i: int, t: int, e: int)
    requires Decided(v, d, i0, u) && i0 < u && Processed(d, after, i0, i, t, e) && Cancelled(d, after, i0, |d|)
    ensures after == d && Decided(v, after, i + 1, u)
  {
    hide Survives, LeadIn;
    assert u < |d| ==> d[u] == 0;
    if i + 1 == u && u < |v| {
      assert v[u] == 0;
    }
  }

  /**
    Cancels provisional discards that are not in the middle of a run of discards.  Exactly those survive that
    stay in their run; they lie between discarded lines, and runs begin and end with nonprovisional ones.
   */
  method CancelProvisional(d: array<int>)
    requires ThreeValued(d[..])
    modifies d
    ensures ThreeValued(d[..]) && Cancelled(old(d[..]), d[..], 0, d.Length)
    ensures Guarded(d[..], 0, d.Length)
    ensures forall k :: 0 <= k < d.Length ==> (d[k] == 2 <==> Survives(old(d[..]), k))
  {
    hide Guarded, Survives, Processed, Decided;
    ghost var v, u := d[..], 0;
    DecidedStart(v);
    NothingGuarded(v);
    var i := 0;
    while i < d.Length
      invariant 0 <= i <= d.Length && ThreeValued(d[..])
      invariant Cancelled(v, d[..], 0, d.Length)
      invariant Guarded(d[..], 0, i) && Decided(v, d[..], i, u)
    {
      ghost var w := d[..];
      if d[i] == 2 {
        DecidedNext(v, w, i, u);
        d[i] := 0;
        assert d[..] == w[i := 0];
        u := if i < u then u else i + 1;
        GuardedOn(w, i);
      } else if d[i] != 0 {
        ghost var i0 := i;
        ghost var t, e;
        i, t, e := ProcessRun(d, i);
        DecidedBounds(v, w, i0, u);
        if i0 < u {
          DecidedAgain(v, w, d[..], i0, u, i, t, e);
        } else {
          DecidedRun(v, w, d[..], i0, i, t, e);
          u := e;
        }
      } else {
        DecidedNext(v, w, i, u);
        assert w[i := 0] == w;
        u := if i < u then u else i + 1;
        GuardedOn(w, i);
      }
      i := i + 1;
    }
    DecidedDone(v, d[..], i, u);
  }

  lemma NothingGuarded(v: seq<int>)
    ensures Guarded(v, 0, 0)
  {
  }

  lemma GuardedOn(v: seq<int>, i: int)
    requires 0 <= i < |v| && Guarded(v, 0, i)
    ensures Guarded(v[i := 0], 0, i + 1)
  {
  }

  lemma DecidedBounds(v: seq<int>, d: seq<int>, i: int, u: int)
    requires Decided(v, d, i, u)
    ensures |d| == |v| && 0 <= i <= u <= |v|
  {
  }

  lemma DecidedDone(v: seq<int>, d: seq<int>, i: int, u: int)
    requires Decided(v, d, i, u) && i >= |v|
    ensures |d| == |v| && forall k :: 0 <= k < |v| ==> (d[k] == 2 <==> Survives(v, k))
  {
    hide Survives;
  }

  /** In a guarded vector every maximal run of discarded lines starts and ends with a nonprovisional one. */
  lemma RunsEndNonprovisional(d: seq<int>, s: int, t: int)
    requires ThreeValued(d) && Guarded(d, 0, |d|) && 0 <= s < t <= |d|
    requires forall k :: s <= k < t ==> d[k] != 0
    requires (s == 0 || d[s - 1] == 0) && (t == |d| || d[t] == 0)
    ensures d[s] == 1 && d[t - 1] == 1
  {
  }
}
