/**
  Equivalence codes for lines (`find_and_hash_each_line`): a hash table whose buckets are chains of
  classes, linked through the class table.  The settings are those that kdiff3 uses: white space is
  skipped, and case is respected.
 */
module LineCoder {
  import opened Lines

  const WORD: int := 0x1_0000_0000_0000_0000
  const HALF: int := 0x200_0000_0000_0000

  /** One step of the hash: rotate left by 7 bits and add, in unsigned 64-bit arithmetic. */
  function HashStep(h: int, c: int): int {
    (c + (h * 128) % WORD + h / HALF) % WORD
  }

  ghost function HashOf(h: int, s: Line): int
    decreases |s|
  {
    if |s| == 0 then h else HashOf(HashStep(h, s[0]), s[1..])
  }

  /** A class: its successor in the bucket, its hash and a line that belongs to it. */
  datatype EquivClass = EquivClass(next: int, hash: int, line: Line)

  /** The hash of what the differ does not skip. */
  method HashLine(o: Options, s: Line) returns (h: int)
    ensures h == HashOf(0, Essence(o, s)) && 0 <= h
  {
    h := 0;
    var p := 0;
    assert s[0..] == s;
    while p < |s|
      invariant 0 <= p <= |s| && 0 <= h
      invariant HashOf(h, Essence(o, s[p..])) == HashOf(0, Essence(o, s))
    {
      EssenceStep(o, s, p);
      if !DifferSkips(o, s[p]) {
        assert Essence(o, s[p..])[1..] == Essence(o, s[p + 1..]);
        h := HashStep(h, s[p]);
      } else {
        assert Essence(o, s[p..]) == Essence(o, s[p + 1..]);
      }
      p := p + 1;
    }
    EssenceEnd(o, s);
  }

  /** The classes on the chain that starts with class k; links always lead to older classes. */
  ghost function Chain(eqs: seq<EquivClass>, k: int): set<int>
    requires Acyclic(eqs) && 0 <= k < |eqs|
    decreases k
  {
    if k == 0 then {} else {k} + Chain(eqs, eqs[k].next)
  }

  ghost predicate Acyclic(eqs: seq<EquivClass>) {
    forall k :: 0 < k < |eqs| ==> 0 <= eqs[k].next < k
  }

  lemma {:induction false} ChainGrows(eqs: seq<EquivClass>, c: EquivClass, k: int)
    requires Acyclic(eqs) && Acyclic(eqs + [c]) && 0 <= k < |eqs|
    ensures Chain(eqs + [c], k) == Chain(eqs, k)
    decreases k
  {
    if k > 0 {
      ChainGrows(eqs, c, eqs[k].next);
    }
  }

  ghost predicate Distinct(o: Options, eqs: seq<EquivClass>) {
    forall j, k :: 0 < j < k < |eqs| ==> !SameEssence(o, eqs[j].line, eqs[k].line)
  }

  /** Every line carries a class with the line's essence. */
  ghost predicate Coded(o: Options, eqs: seq<EquivClass>, lines: seq<Line>, codes: seq<int>) {
    |codes| == |lines| && forall i :: 0 <= i < |lines| ==>
      0 < codes[i] < |eqs| && SameEssence(o, eqs[codes[i]].line, lines[i])
  }

  /** The bucket of a hash. */
  function Bucket(h: int, n: int): (b: int)
    requires 0 <= h && 0 < n
    ensures 0 <= b < n
  {
    h % n
  }

  ghost predicate Hashed(o: Options, c: EquivClass) {
    0 <= c.hash == HashOf(0, Essence(o, c.line))
  }

  /** Class 0 is reserved; every class is on the chain of its hash, and no two classes have the same essence. */
  ghost predicate Table(o: Options, eqs: seq<EquivClass>, buckets: seq<int>) {
    && 0 < |eqs| && Acyclic(eqs) && |buckets| > 0
    && (forall b :: 0 <= b < |buckets| ==> 0 <= buckets[b] < |eqs|)
    && (forall k :: 0 < k < |eqs| ==> 0 <= eqs[k].hash && Hashed(o, eqs[k]))
    && (forall k :: 0 < k < |eqs| ==> k in Chain(eqs, buckets[Bucket(eqs[k].hash, |buckets|)]))
    && Distinct(o, eqs)
  }

  class Coder {
    const o: Options
    var eqs: seq<EquivClass>
    const buckets: array<int>

    ghost predicate Valid()
      reads this, buckets
    {
      Table(o, eqs, buckets[..])
    }

    constructor (o: Options, nbuckets: int)
      requires nbuckets > 0
      ensures Valid() && fresh(buckets) && this.o == o && |eqs| == 1
    {
      this.o := o;
      eqs := [EquivClass(0, 0, [])];
      buckets := new int[nbuckets](_ => 0);
    }

    /** The class of a line; a new one is created only if no class has the line's essence. */
    method Encode(line: Line) returns (code: int)
      requires Valid()
      modifies this, buckets
      ensures Valid() && old(eqs) <= eqs && 0 < code < |eqs|
      ensures SameEssence(o, eqs[code].line, line)
      ensures (forall k :: 0 < k < |old(eqs)| ==> !SameEssence(o, old(eqs)[k].line, line)) <==> |eqs| > |old(eqs)|
    {
      hide Essence, SameEssence, HashOf, Bucket, Distinct;
      var h := HashLine(o, line);
      ghost var eqs0, b0 := eqs, buckets[..];
      var bucket := Bucket(h, buckets.Length);
      var i := buckets[bucket];
      ChainInside(eqs, i);
      while i != 0
        invariant eqs == eqs0 && buckets[..] == b0
        invariant 0 <= i < |eqs|
        invariant Searched(o, eqs0, buckets[bucket], i, line)
        decreases i
      {
        ghost var i0 := i;
        if eqs[i].hash == h {
          if |eqs[i].line| == |line| && eqs[i].line == line {
            SameLine(o, line);
            NotNew(o, eqs0, i, line);
            return i;
          }
          var differ := LinesDiffer(o, eqs[i].line, line);
          if !differ {
            NotNew(o, eqs0, i, line);
            return i;
          }
        }
        i := eqs[i].next;
        SearchedNext(o, eqs0, buckets[bucket], i0, line, h);
      }
      NoClassYet(o, eqs, buckets[..], line, h);
      code := |eqs|;
      AddClass(o, eqs, buckets[..], line, h);
      SameLine(o, line);
      eqs := eqs + [EquivClass(buckets[bucket], h, line)];
      buckets[bucket] := code;
    }

    /** The codes of all lines of a file, in order. */
    method EncodeFile(lines: seq<Line>) returns (codes: seq<int>)
      requires Valid()
      modifies this, buckets
      ensures Valid() && old(eqs) <= eqs
      ensures Coded(o, eqs, lines, codes)
    {
      hide Table, SameEssence;
      codes := [];
      var line := 0;
      while line < |lines|
        invariant 0 <= line <= |lines| && Valid() && old(eqs) <= eqs
        invariant Coded(o, eqs, lines[..line], codes)
      {
        ghost var eqs1 := eqs;
        var i := Encode(lines[line]);
        CodedLater(o, eqs1, eqs, lines[..line], codes);
        CodedMore(o, eqs, lines, codes, line, i);
        codes := codes + [i];
        line := line + 1;
      }
      assert lines[..|lines|] == lines;
    }
  }

  /** Every class on the chain from `first` on is either still to come at `i` or has another essence. */
  ghost predicate Searched(o: Options, eqs: seq<EquivClass>, first: int, i: int, line: Line)
    requires Acyclic(eqs) && 0 <= first < |eqs| && 0 <= i < |eqs|
  {
    forall k :: k in Chain(eqs, first) ==> 0 < k < |eqs| && (k in Chain(eqs, i) || !SameEssence(o, eqs[k].line, line))
  }

  lemma SearchedNext(o: Options, eqs: seq<EquivClass>, first: int, i: int, line: Line, h: int)
    requires Acyclic(eqs) && 0 <= first < |eqs| && 0 < i < |eqs| && Searched(o, eqs, first, i, line)
    requires Hashed(o, eqs[i]) && h == HashOf(0, Essence(o, line))
    requires eqs[i].hash != h || !SameEssence(o, eqs[i].line, line)
    ensures Searched(o, eqs, first, eqs[i].next, line)
  {
    hide Essence, HashOf;
  }

  lemma {:induction false} ChainInside(eqs: seq<EquivClass>, k: int)
    requires Acyclic(eqs) && 0 <= k < |eqs|
    ensures forall j :: j in Chain(eqs, k) ==> 0 < j < |eqs|
    decreases k
  {
    if k > 0 {
      ChainInside(eqs, eqs[k].next);
    }
  }

  lemma SameLine(o: Options, line: Line)
    ensures SameEssence(o, line, line)
  {
  }

  lemma NotNew(o: Options, eqs: seq<EquivClass>, i: int, line: Line)
    requires 0 < i < |eqs| && SameEssence(o, eqs[i].line, line)
    ensures !forall k :: 0 < k < |eqs| ==> !SameEssence(o, eqs[k].line, line)
  {
  }

  /** The hash pre-filter never separates equal lines: a class of the line's essence would be on the line's chain. */
  lemma NoClassYet(o: Options, eqs: seq<EquivClass>, buckets: seq<int>, line: Line, h: int)
    requires Table(o, eqs, buckets) && 0 <= h == HashOf(0, Essence(o, line))
    requires Searched(o, eqs, buckets[Bucket(h, |buckets|)], 0, line)
    ensures forall k :: 0 < k < |eqs| ==> !SameEssence(o, eqs[k].line, line)
  {
    hide Essence, HashOf, Bucket, Distinct;
    forall k | 0 < k < |eqs|
      ensures !SameEssence(o, eqs[k].line, line)
    {
      assert Hashed(o, eqs[k]);
    }
  }

  lemma AddClass(o: Options, eqs: seq<EquivClass>, buckets: seq<int>, line: Line, h: int)
    requires Table(o, eqs, buckets) && 0 <= h == HashOf(0, Essence(o, line))
    requires forall k :: 0 < k < |eqs| ==> !SameEssence(o, eqs[k].line, line)
    ensures var b := Bucket(h, |buckets|); Table(o, eqs + [EquivClass(buckets[b], h, line)], buckets[b := |eqs|])
  {
    hide Essence, HashOf, Bucket, SameEssence, Distinct, Hashed, Chain;
    assert Hashed(o, EquivClass(buckets[Bucket(h, |buckets|)], h, line)) by {
      HashedBy(o, buckets[Bucket(h, |buckets|)], h, line);
    }
    var b := Bucket(h, |buckets|);
    var c := EquivClass(buckets[b], h, line);
    var more, filled := eqs + [c], buckets[b := |eqs|];
    assert Acyclic(more);
    forall k | 0 < k < |more|
      ensures k in Chain(more, filled[Bucket(more[k].hash, |buckets|)])
    {
      ChainGrows(eqs, c, buckets[b]);
      ChainHead(more, |eqs|);
      if k < |eqs| {
        ChainGrows(eqs, c, buckets[Bucket(eqs[k].hash, |buckets|)]);
      }
    }
    DistinctMore(o, eqs, c);
  }

  lemma HashedBy(o: Options, next: int, h: int, line: Line)
    requires 0 <= h == HashOf(0, Essence(o, line))
    ensures Hashed(o, EquivClass(next, h, line))
  {
  }

  lemma ChainHead(eqs: seq<EquivClass>, k: int)
    requires Acyclic(eqs) && 0 < k < |eqs|
    ensures Chain(eqs, k) == {k} + Chain(eqs, eqs[k].next)
  {
  }

  lemma DistinctMore(o: Options, eqs: seq<EquivClass>, c: EquivClass)
    requires Distinct(o, eqs) && forall k :: 0 < k < |eqs| ==> !SameEssence(o, eqs[k].line, c.line)
    ensures Distinct(o, eqs + [c])
  {
    hide SameEssence;
  }

  /** Both files share one table, so codes can be compared across them. */
  method EncodeBoth(o: Options, nbuckets: int, lines0: seq<Line>, lines1: seq<Line>)
    returns (codes0: seq<int>, codes1: seq<int>, equivMax: int)
    requires nbuckets > 0
    ensures |codes0| == |lines0| && |codes1| == |lines1| && 0 < equivMax
    ensures forall i :: 0 <= i < |lines0| ==> 0 < codes0[i] < equivMax
    ensures forall i :: 0 <= i < |lines1| ==> 0 < codes1[i] < equivMax
    ensures forall i, j :: 0 <= i < |lines0| && 0 <= j < |lines1| ==>
              (codes0[i] == codes1[j] <==> SameEssence(o, lines0[i], lines1[j]))
    ensures forall i, j :: 0 <= i < |lines0| && 0 <= j < |lines0| ==>
              (codes0[i] == codes0[j] <==> SameEssence(o, lines0[i], lines0[j]))
    ensures forall i, j :: 0 <= i < |lines1| && 0 <= j < |lines1| ==>
              (codes1[i] == codes1[j] <==> SameEssence(o, lines1[i], lines1[j]))
  {
    var coder := new Coder(o, nbuckets);
    codes0 := coder.EncodeFile(lines0);
    ghost var eqs0 := coder.eqs;
    codes1 := coder.EncodeFile(lines1);
    equivMax := |coder.eqs|;
    CodedLater(o, eqs0, coder.eqs, lines0, codes0);
    CodesTell(o, coder.eqs, lines0, codes0, lines1, codes1);
    CodesTell(o, coder.eqs, lines0, codes0, lines0, codes0);
    CodesTell(o, coder.eqs, lines1, codes1, lines1, codes1);
  }

  lemma CodedMore(o: Options, eqs: seq<EquivClass>, lines: seq<Line>, codes: seq<int>, n: int, code: int)
    requires 0 <= n < |lines| && Coded(o, eqs, lines[..n], codes) && 0 < code < |eqs|
    requires SameEssence(o, eqs[code].line, lines[n])
    ensures Coded(o, eqs, lines[..n + 1], codes + [code])
  {
    hide SameEssence;
  }

  lemma CodedLater(o: Options, eqs: seq<EquivClass>, eqs': seq<EquivClass>, lines: seq<Line>, codes: seq<int>)
    requires eqs <= eqs' && Coded(o, eqs, lines, codes)
    ensures Coded(o, eqs', lines, codes)
  {
    hide SameEssence;
  }

  lemma CodesTell(o: Options, eqs: seq<EquivClass>, ls: seq<Line>, cs: seq<int>, ms: seq<Line>, ds: seq<int>)
    requires Distinct(o, eqs) && Coded(o, eqs, ls, cs) && Coded(o, eqs, ms, ds)
    ensures forall i, j :: 0 <= i < |ls| && 0 <= j < |ms| ==> (cs[i] == ds[j] <==> SameEssence(o, ls[i], ms[j]))
  {
    forall i, j | 0 <= i < |ls| && 0 <= j < |ms|
      ensures cs[i] == ds[j] <==> SameEssence(o, ls[i], ms[j])
    {
      assert SameEssence(o, eqs[cs[i]].line, ls[i]) && SameEssence(o, eqs[ds[j]].line, ms[j]);
    }
  }
}
