/**
 * TopStopWork.ProcessFile for one input text: the header, the first pass
 * (the BONDS and BTYPE bodies and the circuit intervals), the second phase
 * (Length2Count), the third (the TOPSTOP file) and the fourth (the CHAINS
 * file made from the TOPSTOP file). Each phase is the method of its own
 * module; this module states what the whole run writes and what that
 * means. The newline the writers append is a parameter.
 */
module TopStopRun {
  import opened Bonds
  import opened Circuits
  import TopStopHeader
  import TopStopWork
  import TopStopHistogram
  import TopStopScan
  import TopStopChains

  /** What one run computes. */
  datatype Outcome = Outcome(
    header: string, bonds: string, btypes: string, topstopLength: int,
    start1: seq<int>, end1: seq<int>, start2: seq<int>, end2: seq<int>,
    histogram: map<int, int>, letters: string, topstop: string, chains: string)

  /** The non-control characters after the header: the ones the first pass reads. */
  function Kept(input: string): string {
    TopStopWork.NonControl(TopStopHeader.SplitHeader(input).1)
  }

  /** The circuits after the first pass over d, closed by the last finalizeCircuits. */
  function Final(bondOf: map<string, Bond>, d: string): (st: CircuitState)
    requires |d| >= 1
    ensures Inv(st) && NotAfter(st, |d| - 1)
    ensures st.one.at == NONE && st.two.at == NONE
  {
    AfterFinalizeBoth(TopStopWork.CircuitsAfter(bondOf, d, |d| - 1), |d| - 1)
  }

  /** Final with topstopLength named. */
  lemma FinalAt(bondOf: map<string, Bond>, d: string, n: int)
    requires |d| >= 1 && n == |d| - 1
    ensures Final(bondOf, d) == AfterFinalizeBoth(TopStopWork.CircuitsAfter(bondOf, d, n), n)
  {
  }

  /** The four interval lists of a circuit state. */
  function SegmentsOf(st: CircuitState): TopStopScan.Segments {
    TopStopScan.Segments(st.one.starts, st.one.ends, st.two.starts, st.two.ends)
  }

  /** The outcome of a run, phase by phase. */
  predicate Describes(bondOf: map<string, Bond>, btypeOf: map<string, char>, input: string, newline: string, out: Outcome)
    requires bondOf.Keys <= btypeOf.Keys && |Kept(input)| >= 1
  {
    var header := TopStopHeader.SplitHeader(input).0;
    var d := Kept(input);
    var n := |d| - 1;
    var st := Final(bondOf, d);
    && out.header == header && out.topstopLength == n
    && out.bonds == TopStopWork.BondsOut(bondOf, d, n)
    && out.btypes == TopStopWork.BTypesOut(bondOf, btypeOf, d, n)
    && out.start1 == st.one.starts && out.end1 == st.one.ends
    && out.start2 == st.two.starts && out.end2 == st.two.ends
    && out.histogram == TopStopHistogram.Hist(TopStopHistogram.Lengths(st.one.starts, st.one.ends)
                                              + TopStopHistogram.Lengths(st.two.starts, st.two.ends))
    && out.letters == TopStopScan.TopStopLetters(SegmentsOf(st), n)
    && out.topstop == TopStopChains.TopStopText(header, out.letters, newline)
    && out.chains == TopStopChains.ChainsText(out.topstop, newline)
  }

  /**
   * The intervals the first pass records on each circuit are in order, none
   * touches another, and all end by topstopLength.
   */
  lemma FinalIntervals(bondOf: map<string, Bond>, d: string)
    requires |d| >= 1
    ensures var st := Final(bondOf, d);
      && Intervals(st.one.starts, st.one.ends) && Intervals(st.two.starts, st.two.ends)
      && (forall i :: 0 <= i < |st.one.ends| ==> st.one.ends[i] <= |d| - 1)
      && (forall i :: 0 <= i < |st.two.ends| ==> st.two.ends[i] <= |d| - 1)
  {
    var st := Final(bondOf, d);
    TopStopHistogram.IntervalsBounded(st.one.starts, st.one.ends, |d| - 1);
    TopStopHistogram.IntervalsBounded(st.two.starts, st.two.ends, |d| - 1);
  }

  /** Length2Count counts every interval the first pass records once. */
  lemma FinalHistogram(bondOf: map<string, Bond>, d: string)
    requires |d| >= 1
    ensures var st := Final(bondOf, d);
      TopStopHistogram.SumRange(TopStopHistogram.Hist(TopStopHistogram.Lengths(st.one.starts, st.one.ends)
                                                      + TopStopHistogram.Lengths(st.two.starts, st.two.ends)), 1, |d|)
      == |st.one.starts| + |st.two.starts|
  {
    var st := Final(bondOf, d);
    TopStopHistogram.HistogramTotal(st.one.starts, st.one.ends, st.two.starts, st.two.ends, |d| - 1);
  }

  /** Every TOPSTOP letter of the run, but x, counts the circuits the first pass found at its position. */
  lemma FinalLetters(bondOf: map<string, Bond>, d: string)
    requires 1 <= |d| <= 0x8000_0000
    ensures var st := Final(bondOf, d);
      var letters := TopStopScan.TopStopLetters(SegmentsOf(st), |d| - 1);
      && |letters| == |d| - 1
      && forall k :: 0 <= k < |d| - 1 ==>
           TopStopScan.Counts(letters[k], TopStopScan.Covered(st.one.starts, st.one.ends, k),
                              TopStopScan.Covered(st.two.starts, st.two.ends, k))
  {
    FinalIntervals(bondOf, d);
    TopStopScan.CountedLetters(SegmentsOf(Final(bondOf, d)), |d| - 1);
  }

  /** The CHAINS file of a TOPSTOP file the scan wrote is that file translated, and translates back. */
  lemma FinalChains(header: string, letters: string, newline: string, g: TopStopScan.Segments, n: int)
    requires TopStopScan.WellSized(g) && letters == TopStopScan.TopStopLetters(g, n)
    requires |header| == 0 || header[0] == '>'
    requires TopStopHeader.NoLineBreak(header)
    requires newline == "\n" || newline == "\r\n"
    ensures TopStopChains.ChainsText(TopStopChains.TopStopText(header, letters, newline), newline)
            == TopStopChains.TopStopText(header, TopStopChains.Translate(letters), newline)
    ensures TopStopChains.Untranslate(TopStopChains.Translate(letters)) == letters
  {
    TopStopScan.ScanLetters(g, n, 0, 0, 0);
    TopStopChains.ChainsOfTopStop(header, letters, newline);
  }

  /** The intervals of a run are in order, apart and end by topstopLength. */
  lemma RunIntervals(bondOf: map<string, Bond>, btypeOf: map<string, char>, input: string, newline: string, out: Outcome)
    requires bondOf.Keys <= btypeOf.Keys && |Kept(input)| >= 1
    requires Describes(bondOf, btypeOf, input, newline, out)
    ensures Intervals(out.start1, out.end1) && Intervals(out.start2, out.end2)
    ensures forall i :: 0 <= i < |out.end1| ==> out.end1[i] <= out.topstopLength
    ensures forall i :: 0 <= i < |out.end2| ==> out.end2[i] <= out.topstopLength
  {
    FinalIntervals(bondOf, Kept(input));
  }

  /** The histogram of a run counts each of its intervals once. */
  lemma RunHistogram(bondOf: map<string, Bond>, btypeOf: map<string, char>, input: string, newline: string, out: Outcome)
    requires bondOf.Keys <= btypeOf.Keys && |Kept(input)| >= 1
    requires Describes(bondOf, btypeOf, input, newline, out)
    ensures TopStopHistogram.SumRange(out.histogram, 1, out.topstopLength + 1) == |out.start1| + |out.start2|
  {
    FinalHistogram(bondOf, Kept(input));
  }

  /** The TOPSTOP letters of a run count the circuits at their positions. */
  lemma RunLetters(bondOf: map<string, Bond>, btypeOf: map<string, char>, input: string, newline: string, out: Outcome)
    requires bondOf.Keys <= btypeOf.Keys && |Kept(input)| >= 1
    requires Describes(bondOf, btypeOf, input, newline, out)
    requires out.topstopLength < 0x8000_0000
    ensures |out.letters| == out.topstopLength
    ensures forall k :: 0 <= k < out.topstopLength ==>
              TopStopScan.Counts(out.letters[k], TopStopScan.Covered(out.start1, out.end1, k),
                                 TopStopScan.Covered(out.start2, out.end2, k))
  {
    FinalLetters(bondOf, Kept(input));
  }

  /** The CHAINS file of a run is its TOPSTOP file translated, and translates back. */
  lemma RunChains(bondOf: map<string, Bond>, btypeOf: map<string, char>, input: string, newline: string, out: Outcome)
    requires bondOf.Keys <= btypeOf.Keys && |Kept(input)| >= 1
    requires Describes(bondOf, btypeOf, input, newline, out)
    requires newline == "\n" || newline == "\r\n"
    ensures out.chains == TopStopChains.TopStopText(out.header, TopStopChains.Translate(out.letters), newline)
    ensures TopStopChains.Untranslate(TopStopChains.Translate(out.letters)) == out.letters
  {
    TopStopHeader.SplitHeaderStart(input);
    TopStopHeader.SplitHeaderNoBreak(input);
    FinalChains(out.header, out.letters, newline, SegmentsOf(Final(bondOf, Kept(input))), out.topstopLength);
  }

  /** The first pass over the data after the header, with the circuit lists of the tracker. */
  method FirstPhase(bondOf: map<string, Bond>, btypeOf: map<string, char>, data: string)
    returns (bonds: string, btypes: string, n: int, s1: seq<int>, e1: seq<int>, s2: seq<int>, e2: seq<int>)
    requires bondOf.Keys <= btypeOf.Keys && |TopStopWork.NonControl(data)| >= 1
    ensures n == |TopStopWork.NonControl(data)| - 1
    ensures bonds == TopStopWork.BondsOut(bondOf, TopStopWork.NonControl(data), n)
    ensures btypes == TopStopWork.BTypesOut(bondOf, btypeOf, TopStopWork.NonControl(data), n)
    ensures var st := Final(bondOf, TopStopWork.NonControl(data));
      s1 == st.one.starts && e1 == st.one.ends && s2 == st.two.starts && e2 == st.two.ends
  {
    var tracker;
    bonds, btypes, tracker, n := TopStopWork.FirstPass(bondOf, btypeOf, data);
    var st := tracker.State();
    s1, e1, s2, e2 := st.one.starts, st.one.ends, st.two.starts, st.two.ends;
    FinalAt(bondOf, TopStopWork.NonControl(data), n);
  }

  /** ProcessFile: the four phases in order. */
  method ProcessFile(bondOf: map<string, Bond>, btypeOf: map<string, char>, input: string, newline: string)
    returns (out: Outcome)
    requires bondOf.Keys <= btypeOf.Keys && |Kept(input)| >= 1
    ensures Describes(bondOf, btypeOf, input, newline, out)
    ensures Intervals(out.start1, out.end1) && Intervals(out.start2, out.end2)
    ensures forall i :: 0 <= i < |out.end1| ==> out.end1[i] <= out.topstopLength
    ensures forall i :: 0 <= i < |out.end2| ==> out.end2[i] <= out.topstopLength
    ensures TopStopHistogram.SumRange(out.histogram, 1, out.topstopLength + 1) == |out.start1| + |out.start2|
    ensures out.topstopLength < 0x8000_0000 ==>
      && |out.letters| == out.topstopLength
      && forall k :: 0 <= k < out.topstopLength ==>
           TopStopScan.Counts(out.letters[k], TopStopScan.Covered(out.start1, out.end1, k),
                              TopStopScan.Covered(out.start2, out.end2, k))
    ensures newline == "\n" || newline == "\r\n" ==>
      && out.chains == TopStopChains.TopStopText(out.header, TopStopChains.Translate(out.letters), newline)
      && TopStopChains.Untranslate(TopStopChains.Translate(out.letters)) == out.letters
  {
    var header, data := TopStopHeader.SplitHeader(input).0, TopStopHeader.SplitHeader(input).1;
    var bonds, btypes, n, s1, e1, s2, e2 := FirstPhase(bondOf, btypeOf, data);
    var histogram := TopStopHistogram.Histogram(s1, e1, s2, e2);
    var g := TopStopScan.Segments(s1, e1, s2, e2);
    var letters := TopStopScan.Scan(g, n);
    var topstop := TopStopChains.TopStopText(header, letters, newline);
    var chains := TopStopChains.GenerateChains(topstop, newline);
    out := Outcome(header, bonds, btypes, n, s1, e1, s2, e2, histogram, letters, topstop, chains);
    RunIntervals(bondOf, btypeOf, input, newline, out);
    RunHistogram(bondOf, btypeOf, input, newline, out);
    if n < 0x8000_0000 {
      RunLetters(bondOf, btypeOf, input, newline, out);
    }
    if newline == "\n" || newline == "\r\n" {
      RunChains(bondOf, btypeOf, input, newline, out);
    }
  }
}
