/**
 * The second phase of ProcessFile in TopStopWork: Length2Count, the number
 * of recorded circuit intervals of each length, over both circuits.
 */
module TopStopHistogram {
  import opened Circuits

  /** The length counts the second phase computes: for each length, how many intervals have it. */
  function Tally(h: map<int, int>, x: int): map<int, int> {
    if x in h then h[x := h[x] + 1] else h[x := 1]
  }

  function Hist(ls: seq<int>): map<int, int> {
    if |ls| == 0 then map[] else Tally(Hist(ls[..|ls| - 1]), ls[|ls| - 1])
  }

  /** Length2Count[len] is the number of intervals of length len, and only lengths that occur are keys. */
  lemma {:induction false} HistCounts(ls: seq<int>)
    ensures forall x :: x in Hist(ls) <==> x in multiset(ls)
    ensures forall x :: x in Hist(ls) ==> Hist(ls)[x] == multiset(ls)[x]
  {
    if |ls| > 0 {
      var front := ls[..|ls| - 1];
      assert ls == front + [ls[|ls| - 1]];
      HistCounts(front);
    }
  }

  /** end - start of every interval. */
  function Lengths(starts: seq<int>, ends: seq<int>): (r: seq<int>)
    requires |starts| == |ends|
    ensures |r| == |starts|
    ensures forall i :: 0 <= i < |r| ==> r[i] == ends[i] - starts[i]
  {
    seq(|starts|, i requires 0 <= i < |starts| => ends[i] - starts[i])
  }

  /** The counts of h summed over the lengths lo, lo + 1, ..., hi - 1. */
  function SumRange(h: map<int, int>, lo: int, hi: int): int
    decreases hi - lo
  {
    if lo >= hi then 0 else (if lo in h then h[lo] else 0) + SumRange(h, lo + 1, hi)
  }

  lemma {:induction false} SumRangeAgree(h: map<int, int>, g: map<int, int>, lo: int, hi: int)
    requires forall x :: lo <= x < hi ==> (x in h <==> x in g) && (x in h ==> h[x] == g[x])
    ensures SumRange(h, lo, hi) == SumRange(g, lo, hi)
    decreases hi - lo
  {
    if lo < hi {
      SumRangeAgree(h, g, lo + 1, hi);
    }
  }

  lemma {:induction false} SumTally(h: map<int, int>, x: int, lo: int, hi: int)
    requires lo <= x < hi
    ensures SumRange(Tally(h, x), lo, hi) == SumRange(h, lo, hi) + 1
    decreases hi - lo
  {
    if lo == x {
      SumRangeAgree(Tally(h, x), h, lo + 1, hi);
    } else {
      SumTally(h, x, lo + 1, hi);
    }
  }

  lemma {:induction false} SumRangeEmpty(lo: int, hi: int)
    ensures SumRange(map[], lo, hi) == 0
    decreases hi - lo
  {
    if lo < hi {
      SumRangeEmpty(lo + 1, hi);
    }
  }

  /** The counts add up to the number of intervals, summed over any range of lengths that holds them all. */
  predicate AllIn(ls: seq<int>, lo: int, hi: int) {
    forall i :: 0 <= i < |ls| ==> lo <= ls[i] < hi
  }

  lemma AllInConcat(a: seq<int>, b: seq<int>, lo: int, hi: int)
    requires AllIn(a, lo, hi) && AllIn(b, lo, hi)
    ensures AllIn(a + b, lo, hi)
  {
    assert forall i :: 0 <= i < |a + b| ==> (a + b)[i] == (if i < |a| then a[i] else b[i - |a|]);
  }

  lemma {:induction false} HistTotal(ls: seq<int>, lo: int, hi: int)
    requires AllIn(ls, lo, hi)
    ensures SumRange(Hist(ls), lo, hi) == |ls|
  {
    if |ls| > 0 {
      var front := ls[..|ls| - 1];
      assert Hist(ls) == Tally(Hist(front), ls[|ls| - 1]);
      HistTotal(front, lo, hi);
      SumTally(Hist(front), ls[|ls| - 1], lo, hi);
    } else {
      SumRangeEmpty(lo, hi);
    }
  }

  /** Second phase: Length2Count over the intervals of circuit 1, then of circuit 2. */
  method Histogram(start1: seq<int>, end1: seq<int>, start2: seq<int>, end2: seq<int>) returns (h: map<int, int>)
    requires |start1| == |end1| && |start2| == |end2|
    ensures h == Hist(Lengths(start1, end1) + Lengths(start2, end2))
  {
    h := CountLengths(map[], start1, end1, []);
    NoPrefix(Lengths(start1, end1));
    h := CountLengths(h, start2, end2, Lengths(start1, end1));
  }

  lemma NoPrefix(l: seq<int>)
    ensures [] + l == l
  {
  }

  /** One of the two loops: each interval's length is tallied onto the histogram of the lengths before. */
  method CountLengths(h0: map<int, int>, starts: seq<int>, ends: seq<int>, ghost before: seq<int>) returns (h: map<int, int>)
    requires |starts| == |ends| && h0 == Hist(before)
    ensures h == Hist(before + Lengths(starts, ends))
  {
    ghost var ls := Lengths(starts, ends);
    h := h0;
    var i := 0;
    assert before + ls[..0] == before;
    while i < |starts|
      invariant 0 <= i <= |starts|
      invariant h == Hist(before + ls[..i])
    {
      var len := ends[i] - starts[i];
      HistAppendStep(before, ls, i);
      if len in h {
        h := h[len := h[len] + 1];
      } else {
        h := h[len := 1];
      }
      i := i + 1;
    }
    assert ls[..i] == ls;
  }

  lemma HistAppendStep(before: seq<int>, ls: seq<int>, i: nat)
    requires i < |ls|
    ensures Hist(before + ls[..i + 1]) == Tally(Hist(before + ls[..i]), ls[i])
  {
    var q := before + ls[..i + 1];
    assert q[..|q| - 1] == before + ls[..i];
  }

  /**
   * The counts of the histogram sum to the number of intervals recorded on
   * both circuits; the intervals the first pass records have lengths 1 to n.
   */
  lemma HistogramTotal(start1: seq<int>, end1: seq<int>, start2: seq<int>, end2: seq<int>, n: int)
    requires Intervals(start1, end1) && Intervals(start2, end2)
    requires (|end1| > 0 ==> end1[|end1| - 1] <= n) && (|end2| > 0 ==> end2[|end2| - 1] <= n)
    ensures SumRange(Hist(Lengths(start1, end1) + Lengths(start2, end2)), 1, n + 1) == |start1| + |start2|
  {
    var l1, l2 := Lengths(start1, end1), Lengths(start2, end2);
    LengthsBounded(start1, end1, n);
    LengthsBounded(start2, end2, n);
    BothTotal(l1, l2, 1, n + 1);
    assert |l1| + |l2| == |start1| + |start2|;
  }

  lemma BothTotal(l1: seq<int>, l2: seq<int>, lo: int, hi: int)
    requires AllIn(l1, lo, hi) && AllIn(l2, lo, hi)
    ensures SumRange(Hist(l1 + l2), lo, hi) == |l1| + |l2|
  {
    AllInConcat(l1, l2, lo, hi);
    HistTotal(l1 + l2, lo, hi);
  }

  /** The lengths of a list of intervals that ends by n lie between 1 and n. */
  lemma LengthsBounded(starts: seq<int>, ends: seq<int>, n: int)
    requires Intervals(starts, ends)
    requires |ends| > 0 ==> ends[|ends| - 1] <= n
    ensures AllIn(Lengths(starts, ends), 1, n + 1)
  {
    IntervalsBounded(starts, ends, n);
  }

  /** Every interval of a list whose last end is at most n ends at most at n. */
  lemma {:induction false} IntervalsBounded(starts: seq<int>, ends: seq<int>, n: int)
    requires Intervals(starts, ends)
    requires |ends| > 0 ==> ends[|ends| - 1] <= n
    ensures forall i :: 0 <= i < |ends| ==> 0 <= starts[i] < ends[i] <= n
  {
    if |ends| > 1 {
      var s', e' := starts[..|starts| - 1], ends[..|ends| - 1];
      assert Intervals(s', e');
      IntervalsBounded(s', e', n);
    }
  }
}
