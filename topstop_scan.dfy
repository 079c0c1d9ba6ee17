/**
 * The third phase of TopStopWork.ProcessFile: the scan over the positions
 * 0 .. topstopLength - 1 that writes one TOPSTOP letter per position from
 * the recorded [start, end) intervals of the two circuits. At each position
 * i1 and i2 point at the first interval of each list the scan has not gone
 * past. An X marks the switch from one circuit to the other; otherwise the
 * letter says how many circuits cover the position (S none, I one, Y or P
 * both); once both lists are exhausted the rest is filled with S.
 */
module TopStopScan {
  import opened Bonds
  import opened Circuits
  import opened TopStopPrinter

  /** The four lists the first pass records. */
  datatype Segments = Segments(start1: seq<int>, end1: seq<int>, start2: seq<int>, end2: seq<int>)

  predicate WellSized(g: Segments) {
    |g.start1| == |g.end1| && |g.start2| == |g.end2|
  }

  /** What the scan does at one position: write a letter and move on with new indices, or fill the rest with S. */
  datatype Step = Emit(letter: TopStop, i1: nat, i2: nat) | FillRest

  /** [s, e) covers pos. */
  predicate Covers(s: int, e: int, pos: int) {
    s <= pos < e
  }

  /**
   * Both circuits cover the position: one interval lying inside the other is
   * an overlay (Y), two intervals that only overlap are an overlap (P).
   */
  function BothLetter(s1: int, e1: int, s2: int, e2: int): (r: TopStop)
    ensures r == Y <==> (s1 <= s2 && e2 <= e1) || (s2 <= s1 && e1 <= e2)
    ensures r == P <==> !((s1 <= s2 && e2 <= e1) || (s2 <= s1 && e1 <= e2))
  {
    if s1 <= s2 && e1 >= e2 then Y
    else if s2 <= s1 && e2 >= e1 then Y
    else if s1 <= s2 && e1 < e2 then P
    else assert s2 <= s1 && e2 < e1; P
  }

  /** The letter at pos when at most the current interval of each list can cover it. */
  function PlainLetter(s1: int, e1: int, s2: int, e2: int, pos: int): TopStop {
    if Covers(s1, e1, pos) && Covers(s2, e2, pos) then BothLetter(s1, e1, s2, e2)
    else if Covers(s1, e1, pos) || Covers(s2, e2, pos) then I
    else S
  }

  /** The index after pos: moved past an interval that ends exactly at pos. */
  function Past(ends: seq<int>, i: nat, pos: int): nat
    requires i < |ends|
  {
    if ends[i] == pos then i + 1 else i
  }

  /** One iteration of the scan loop at pos, with the branches in the order the scan tries them. */
  function ScanStep(g: Segments, i1: nat, i2: nat, pos: int): (r: Step)
    requires WellSized(g) && i1 <= |g.end1| && i2 <= |g.end2|
    ensures r.FillRest? <==> i1 == |g.end1| && i2 == |g.end2|
    ensures r.Emit? ==> i1 <= r.i1 <= i1 + 1 && r.i1 <= |g.end1|
    ensures r.Emit? ==> i2 <= r.i2 <= i2 + 1 && r.i2 <= |g.end2|
  {
    var s1, e1, s2, e2 := g.start1, g.end1, g.start2, g.end2;
    // circuit 2 hands over to circuit 1
    if i2 < |e2| && i1 < |s1| && e2[i2] == s1[i1] && e2[i2] == pos then Emit(X, i1, i2 + 1)
    else if i2 < |e2| && i1 < |s1| && e2[i2] == s1[i1] && e2[i2] == pos + 1 then Emit(X, i1, i2)
    else if i2 < |e2| && i1 + 1 < |s1| && e2[i2] == s1[i1 + 1] && e2[i2] == pos + 1 then Emit(X, Past(e1, i1, pos), i2)
    // circuit 1 hands over to circuit 2
    else if i1 < |e1| && i2 < |s2| && e1[i1] == s2[i2] && e1[i1] == pos then Emit(X, i1 + 1, i2)
    else if i1 < |e1| && i2 < |s2| && e1[i1] == s2[i2] && e1[i1] == pos + 1 then Emit(X, i1, i2)
    else if i1 < |e1| && i2 + 1 < |s2| && e1[i1] == s2[i2 + 1] && e1[i1] == pos + 1 then Emit(X, i1, Past(e2, i2, pos))
    // both lists exhausted
    else if i1 >= |e1| && i2 >= |e2| then FillRest
    // only circuit 2 left
    else if i1 >= |e1| then
      if Covers(s2[i2], e2[i2], pos) then Emit(I, i1, i2)
      else if e2[i2] == pos then Emit(S, i1, i2 + 1)
      else Emit(S, i1, i2)
    // only circuit 1 left
    else if i2 >= |e2| then
      if Covers(s1[i1], e1[i1], pos) then Emit(I, i1, i2)
      else if e1[i1] == pos then Emit(S, i1 + 1, i2)
      else Emit(S, i1, i2)
    else
      Emit(PlainLetter(s1[i1], e1[i1], s2[i2], e2[i2], pos), Past(e1, i1, pos), Past(e2, i2, pos))
  }

  /** The letters the scan writes from pos on, up to topstopLength n, starting with indices i1 and i2. */
  function ScanFrom(g: Segments, n: int, i1: nat, i2: nat, pos: int): (r: string)
    requires WellSized(g) && i1 <= |g.end1| && i2 <= |g.end2|
    ensures 0 <= n - pos < 0x8000_0000 ==> |r| == n - pos
    decreases n - pos
  {
    if pos >= n then []
    else match ScanStep(g, i1, i2, pos)
      case FillRest =>
        var k := ToInt32(n - pos);
        if k > 0 then Repeat(ToChar(S), k) else []
      case Emit(l, j1, j2) => [ToChar(l)] + ScanFrom(g, n, j1, j2, pos + 1)
  }

  /** The whole TOPSTOP body: the scan from position 0 with both indices at 0. */
  function TopStopLetters(g: Segments, n: int): (r: string)
    requires WellSized(g)
    ensures 0 <= n < 0x8000_0000 ==> |r| == n
    ensures n <= 0 ==> r == []
    ensures forall k :: 0 <= k < |r| ==> FromChar(r[k]).Some?
  {
    ScanLetters(g, n, 0, 0, 0);
    ScanFrom(g, n, 0, 0, 0)
  }

  /**
   * The scan loop: the for loop over pos with its continue statements, writing
   * through a PrintTopstopAndShiftPosition that starts at position 0.
   */
  method Scan(g: Segments, n: int) returns (written: string)
    requires WellSized(g)
    ensures written == TopStopLetters(g, n)
  {
    var printer := new Printer(0);
    var i1: nat, i2: nat := 0, 0;
    var pos := 0;
    while pos < n
      invariant 0 <= pos && i1 <= |g.end1| && i2 <= |g.end2|
      invariant pos <= n ==> printer.position == pos
      invariant printer.written + ScanFrom(g, n, i1, i2, pos) == TopStopLetters(g, n)
      decreases n - pos
    {
      i1, i2, pos := ScanPosition(g, n, printer, i1, i2, pos);
    }
    written := printer.written;
  }

  /** One pass of the scan loop at pos, ending with the increment of pos. */
  method ScanPosition(g: Segments, n: int, printer: Printer, i1: nat, i2: nat, pos: int)
    returns (i1': nat, i2': nat, pos': int)
    requires WellSized(g) && i1 <= |g.end1| && i2 <= |g.end2|
    requires 0 <= pos < n && printer.position == pos
    modifies printer
    ensures i1' <= |g.end1| && i2' <= |g.end2| && pos < pos'
    ensures pos' <= n ==> printer.position == pos'
    ensures printer.written + ScanFrom(g, n, i1', i2', pos') == old(printer.written) + ScanFrom(g, n, i1, i2, pos)
  {
    var step := ScanStep(g, i1, i2, pos);
    ScanFromStep(g, n, i1, i2, pos);
    match step {
      case FillRest =>
        var _ := printer.GoTo(S, n);
        i1', i2', pos' := i1, i2, n + 1;
      case Emit(letter, j1, j2) =>
        var _ := printer.Go(letter);
        i1', i2', pos' := j1, j2, pos + 1;
    }
  }

  /** ScanFrom at a position before the end, one step unfolded. */
  lemma ScanFromStep(g: Segments, n: int, i1: nat, i2: nat, pos: int)
    requires WellSized(g) && i1 <= |g.end1| && i2 <= |g.end2| && pos < n
    ensures ScanStep(g, i1, i2, pos).FillRest? ==>
              ScanFrom(g, n, i1, i2, pos) ==
                (if ToInt32(n - pos) > 0 then Repeat(ToChar(S), ToInt32(n - pos)) else [])
    ensures ScanStep(g, i1, i2, pos).FillRest? && n - pos < 0x8000_0000 ==>
              ScanFrom(g, n, i1, i2, pos) == Repeat(ToChar(S), n - pos)
    ensures ScanStep(g, i1, i2, pos).Emit? ==>
              ScanFrom(g, n, i1, i2, pos) ==
                [ToChar(ScanStep(g, i1, i2, pos).letter)] +
                ScanFrom(g, n, ScanStep(g, i1, i2, pos).i1, ScanStep(g, i1, i2, pos).i2, pos + 1)
  {
  }

  /** The scan writes nothing but TOPSTOP letters. */
  lemma {:induction false} ScanLetters(g: Segments, n: int, i1: nat, i2: nat, pos: int)
    requires WellSized(g) && i1 <= |g.end1| && i2 <= |g.end2|
    ensures forall k :: 0 <= k < |ScanFrom(g, n, i1, i2, pos)| ==> FromChar(ScanFrom(g, n, i1, i2, pos)[k]).Some?
    decreases n - pos
  {
    if pos < n {
      ScanFromStep(g, n, i1, i2, pos);
      var step := ScanStep(g, i1, i2, pos);
      if step.Emit? {
        ScanLetters(g, n, step.i1, step.i2, pos + 1);
        var rest := ScanFrom(g, n, step.i1, step.i2, pos + 1);
        var r := ScanFrom(g, n, i1, i2, pos);
        forall k | 0 <= k < |r|
          ensures FromChar(r[k]).Some?
        {
          if k > 0 {
            assert r[k] == rest[k - 1];
          }
        }
      }
    }
  }

  /** Interval [s[k], e[k]) of the list covers pos. */
  ghost predicate Covered(s: seq<int>, e: seq<int>, pos: int)
    requires |s| == |e|
  {
    exists k :: 0 <= k < |s| && Covers(s[k], e[k], pos)
  }

  /**
   * Every interval of the list is nonempty, starts at a position 0 or later,
   * and ends no later than any later interval starts.
   */
  predicate Sorted(s: seq<int>, e: seq<int>) {
    && |s| == |e|
    && (forall k :: 0 <= k < |s| ==> 0 <= s[k] < e[k])
    && (forall k, m :: 0 <= k < m < |s| ==> e[k] <= s[m])
  }

  /** No two intervals of the list touch: each ends before any later one starts. */
  predicate Apart(s: seq<int>, e: seq<int>)
    requires |s| == |e|
  {
    forall k, m :: 0 <= k < m < |s| ==> e[k] < s[m]
  }

  /**
   * The scan's own account of i: every interval before i ended before pos
   * and interval i, if any, has not ended before pos.
   */
  predicate Place(e: seq<int>, i: nat, pos: int) {
    && i <= |e|
    && (0 < i ==> e[i - 1] < pos)
    && (i < |e| ==> pos <= e[i])
  }

  /** The intervals the first pass records are in order and no two of them touch. */
  lemma IntervalsApart(s: seq<int>, e: seq<int>)
    requires Intervals(s, e)
    ensures Sorted(s, e) && Apart(s, e)
  {
  }

  /** With intervals that do not touch, only interval i can cover a position the scan has placed at i. */
  lemma CoveredByCurrent(s: seq<int>, e: seq<int>, i: nat, pos: int)
    requires Sorted(s, e) && Apart(s, e) && Place(e, i, pos)
    ensures Covered(s, e, pos) <==> i < |e| && Covers(s[i], e[i], pos)
  {
    if Covered(s, e, pos) {
      var k :| 0 <= k < |s| && Covers(s[k], e[k], pos);
      SortedAt(s, e, k, i - 1);
    }
  }

  /** One pair of a sorted list, as an implication that holds whatever k and m are. */
  lemma SortedAt(s: seq<int>, e: seq<int>, k: int, m: int)
    requires Sorted(s, e)
    ensures 0 <= k < m < |s| ==> e[k] <= s[m]
  {
  }

  /** Each step keeps the scan's account of both indices. */
  lemma StepKeepsPlace(g: Segments, i1: nat, i2: nat, pos: int)
    requires WellSized(g) && Sorted(g.start1, g.end1) && Sorted(g.start2, g.end2)
    requires Place(g.end1, i1, pos) && Place(g.end2, i2, pos)
    ensures ScanStep(g, i1, i2, pos).Emit? ==>
              Place(g.end1, ScanStep(g, i1, i2, pos).i1, pos + 1) && Place(g.end2, ScanStep(g, i1, i2, pos).i2, pos + 1)
  {
    if ScanStep(g, i1, i2, pos).Emit? {
      StepMovesFirst(g, i1, i2, pos);
      StepMovesSecond(g, i1, i2, pos);
      MovePlace(g.start1, g.end1, i1, pos);
      MovePlace(g.start2, g.end2, i2, pos);
    }
  }

  /** A step moves the first index past an interval ending at pos, or leaves it before an interval that does not. */
  lemma StepMovesFirst(g: Segments, i1: nat, i2: nat, pos: int)
    requires WellSized(g) && Sorted(g.start1, g.end1) && i1 <= |g.end1| && i2 <= |g.end2|
    requires ScanStep(g, i1, i2, pos).Emit?
    ensures var j := ScanStep(g, i1, i2, pos).i1;
      || (j == i1 + 1 && i1 < |g.end1| && g.end1[i1] == pos)
      || (j == i1 && (i1 < |g.end1| ==> g.end1[i1] != pos))
  {
    if i1 < |g.end1| {
      assert g.start1[i1] < g.end1[i1];
    }
  }

  /** The same for the second index. */
  lemma StepMovesSecond(g: Segments, i1: nat, i2: nat, pos: int)
    requires WellSized(g) && Sorted(g.start2, g.end2) && i1 <= |g.end1| && i2 <= |g.end2|
    requires ScanStep(g, i1, i2, pos).Emit?
    ensures var j := ScanStep(g, i1, i2, pos).i2;
      || (j == i2 + 1 && i2 < |g.end2| && g.end2[i2] == pos)
      || (j == i2 && (i2 < |g.end2| ==> g.end2[i2] != pos))
  {
    if i2 < |g.end2| {
      assert g.start2[i2] < g.end2[i2];
    }
  }

  /** The three ways a step moves one index keep its place. */
  lemma MovePlace(s: seq<int>, e: seq<int>, i: nat, pos: int)
    requires Sorted(s, e) && Place(e, i, pos)
    ensures i < |e| && e[i] == pos ==> Place(e, i + 1, pos + 1)
    ensures (i < |e| ==> e[i] != pos) ==> Place(e, i, pos + 1)
    ensures i < |e| ==> Place(e, Past(e, i, pos), pos + 1)
  {
    if i + 1 < |e| {
      assert e[i] <= s[i + 1];
    }
  }

  /**
   * Away from a hand-over, the letter counts the circuits at pos: S for
   * none, I for one, Y or P for both.
   */
  lemma PlainStepLetter(g: Segments, i1: nat, i2: nat, pos: int)
    requires WellSized(g) && Sorted(g.start1, g.end1) && Sorted(g.start2, g.end2)
    requires Apart(g.start1, g.end1) && Apart(g.start2, g.end2)
    requires Place(g.end1, i1, pos) && Place(g.end2, i2, pos)
    requires ScanStep(g, i1, i2, pos).Emit? && ScanStep(g, i1, i2, pos).letter != X
    ensures var l := ScanStep(g, i1, i2, pos).letter;
            var c1, c2 := Covered(g.start1, g.end1, pos), Covered(g.start2, g.end2, pos);
            && (l == S <==> !c1 && !c2)
            && (l == I <==> c1 != c2)
            && (l == Y || l == P <==> c1 && c2)
  {
    CoveredByCurrent(g.start1, g.end1, i1, pos);
    CoveredByCurrent(g.start2, g.end2, i2, pos);
  }

  /** A list the scan has gone through covers no later position. */
  lemma NoneLeft(s: seq<int>, e: seq<int>, pos: int, q: int)
    requires Sorted(s, e) && Apart(s, e) && Place(e, |e|, pos) && pos <= q
    ensures !Covered(s, e, q)
  {
    CoveredByCurrent(s, e, |e|, q);
  }

  /**
   * What a letter other than x says about the circuits at its position: s for
   * none, i for exactly one, y or p for both.
   */
  ghost predicate Counts(ch: char, c1: bool, c2: bool) {
    ch == 'x' ||
    ((ch == 's' <==> !c1 && !c2) && (ch == 'i' <==> c1 != c2) && (ch == 'y' || ch == 'p' <==> c1 && c2))
  }

  /** Every letter of r, the letters for positions pos, pos + 1, ..., counts the circuits at its position. */
  ghost predicate CountsAll(r: string, g: Segments, pos: int)
    requires WellSized(g)
  {
    forall k :: 0 <= k < |r| ==> Counts(r[k], Covered(g.start1, g.end1, pos + k), Covered(g.start2, g.end2, pos + k))
  }

  lemma ConsCounts(c: char, rest: string, g: Segments, pos: int)
    requires WellSized(g) && Counts(c, Covered(g.start1, g.end1, pos), Covered(g.start2, g.end2, pos))
    requires CountsAll(rest, g, pos + 1)
    ensures CountsAll([c] + rest, g, pos)
  {
    var r := [c] + rest;
    forall k | 0 <= k < |r|
      ensures Counts(r[k], Covered(g.start1, g.end1, pos + k), Covered(g.start2, g.end2, pos + k))
    {
      if k > 0 {
        assert r[k] == rest[k - 1];
      }
    }
  }

  /** Once both lists are gone through, the s letters that fill the rest are right. */
  lemma FillCounts(g: Segments, pos: int, m: nat)
    requires WellSized(g) && Sorted(g.start1, g.end1) && Sorted(g.start2, g.end2)
    requires Apart(g.start1, g.end1) && Apart(g.start2, g.end2)
    requires Place(g.end1, |g.end1|, pos) && Place(g.end2, |g.end2|, pos)
    ensures CountsAll(Repeat(ToChar(S), m), g, pos)
  {
    forall q | pos <= q < pos + m
      ensures !Covered(g.start1, g.end1, q) && !Covered(g.start2, g.end2, q)
    {
      NoneLeft(g.start1, g.end1, pos, q);
      NoneLeft(g.start2, g.end2, pos, q);
    }
  }

  lemma FillFrom(g: Segments, n: int, i1: nat, i2: nat, pos: int)
    requires WellSized(g) && Sorted(g.start1, g.end1) && Sorted(g.start2, g.end2)
    requires Apart(g.start1, g.end1) && Apart(g.start2, g.end2)
    requires Place(g.end1, i1, pos) && Place(g.end2, i2, pos) && 0 <= n - pos < 0x8000_0000
    requires pos < n && ScanStep(g, i1, i2, pos).FillRest?
    ensures CountsAll(ScanFrom(g, n, i1, i2, pos), g, pos)
  {
    ScanFromStep(g, n, i1, i2, pos);
    FillCounts(g, pos, n - pos);
  }

  /** Every letter but x written from pos on counts the circuits covering its position. */
  lemma {:induction false} CountsFrom(g: Segments, n: int, i1: nat, i2: nat, pos: int)
    requires WellSized(g) && Sorted(g.start1, g.end1) && Sorted(g.start2, g.end2)
    requires Apart(g.start1, g.end1) && Apart(g.start2, g.end2)
    requires Place(g.end1, i1, pos) && Place(g.end2, i2, pos) && 0 <= n - pos < 0x8000_0000
    ensures CountsAll(ScanFrom(g, n, i1, i2, pos), g, pos)
    decreases n - pos
  {
    if pos < n {
      ScanFromStep(g, n, i1, i2, pos);
      var step := ScanStep(g, i1, i2, pos);
      if step.FillRest? {
        FillFrom(g, n, i1, i2, pos);
      } else {
        if step.letter != X {
          PlainStepLetter(g, i1, i2, pos);
        }
        StepKeepsPlace(g, i1, i2, pos);
        CountsFrom(g, n, step.i1, step.i2, pos + 1);
        ConsCounts(ToChar(step.letter), ScanFrom(g, n, step.i1, step.i2, pos + 1), g, pos);
      }
    }
  }

  /**
   * For intervals such as the first pass records (in order, none touching
   * another of its circuit), every letter of the TOPSTOP body but x counts
   * the circuits covering its position.
   */
  lemma CountedLetters(g: Segments, n: int)
    requires WellSized(g) && Intervals(g.start1, g.end1) && Intervals(g.start2, g.end2)
    requires 0 <= n < 0x8000_0000
    ensures |TopStopLetters(g, n)| == n
    ensures forall k :: 0 <= k < n ==>
              Counts(TopStopLetters(g, n)[k], Covered(g.start1, g.end1, k), Covered(g.start2, g.end2, k))
  {
    IntervalsApart(g.start1, g.end1);
    IntervalsApart(g.start2, g.end2);
    PlaceAtStart(g.start1, g.end1);
    PlaceAtStart(g.start2, g.end2);
    CountsFrom(g, n, 0, 0, 0);
  }

  lemma PlaceAtStart(s: seq<int>, e: seq<int>)
    requires Sorted(s, e)
    ensures Place(e, 0, 0)
  {
    if |e| > 0 {
      assert 0 <= s[0] < e[0];
    }
  }

  /** An x marks a hand-over between the circuits: with one list empty there is none. */
  lemma {:induction false} NoHandover(g: Segments, n: int, i1: nat, i2: nat, pos: int)
    requires WellSized(g) && i1 <= |g.end1| && i2 <= |g.end2| && (|g.end1| == 0 || |g.end2| == 0)
    ensures 'x' !in ScanFrom(g, n, i1, i2, pos)
    decreases n - pos
  {
    if pos < n {
      ScanFromStep(g, n, i1, i2, pos);
      var step := ScanStep(g, i1, i2, pos);
      if step.Emit? {
        NoHandover(g, n, step.i1, step.i2, pos + 1);
      }
    }
  }

  /**
   * With list 2 empty and circuit 1's intervals as the first pass records them, the scan writes
   * 'i' exactly at the positions inside one of circuit 1's intervals and 's'
   * everywhere else.
   */
  lemma OneCircuitLetters(g: Segments, n: int)
    requires WellSized(g) && |g.start2| == 0 && Intervals(g.start1, g.end1)
    requires 0 <= n < 0x8000_0000
    ensures |TopStopLetters(g, n)| == n
    ensures forall k :: 0 <= k < n ==>
              TopStopLetters(g, n)[k] == (if Covered(g.start1, g.end1, k) then 'i' else 's')
  {
    CountedLetters(g, n);
    NoHandover(g, n, 0, 0, 0);
  }

  /**
   * Why the scan needs intervals apart: for two intervals of circuit 1 that
   * touch, lists the first pass never records, the scan still looks at the
   * first one at position 2, where it has ended, and writes 's' although the
   * second one covers that position.
   */
  lemma TouchingIntervals()
    ensures var g := Segments([0, 2], [2, 4], [], []);
            && !Intervals(g.start1, g.end1)
            && Covered(g.start1, g.end1, 2)
            && TopStopLetters(g, 4) == "iisi"
  {
    var g := Segments([0, 2], [2, 4], [], []);
    assert Covers(g.start1[1], g.end1[1], 2);
    assert ScanStep(g, 0, 0, 0) == Emit(I, 0, 0);
    assert ScanStep(g, 0, 0, 1) == Emit(I, 0, 0);
    assert ScanStep(g, 0, 0, 2) == Emit(S, 1, 0);
    assert ScanStep(g, 1, 0, 3) == Emit(I, 1, 0);
  }
}
