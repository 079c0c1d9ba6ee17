/**
 * ProcessFile of TopStopWork: the first pass over the input, which writes the
 * bond and B type letters and runs the two circuits; the histogram of the
 * recorded circuit lengths; the position scan that writes the topstop
 * letters; and the CHAINS translation of the topstop letters.
 */
module TopStopWork {
  import opened Wrappers
  import opened Chars
  import opened Text
  import opened Bonds
  import opened Circuits
  import opened TopStopPrinter
  import opened TopStopConfig

  /** The characters of `s` that are not control characters, in order. */
  function NonControl(s: string): (r: string)
    ensures |r| <= |s|
    ensures forall i :: 0 <= i < |r| ==> !IsControl(r[i])
  {
    if |s| == 0 then []
    else NonControl(s[..|s| - 1]) + (if IsControl(s[|s| - 1]) then [] else [s[|s| - 1]])
  }

  lemma {:induction false} NonControlConcat(a: string, b: string)
    ensures NonControl(a + b) == NonControl(a) + NonControl(b)
  {
    if |b| > 0 {
      var b' := b[..|b| - 1];
      assert (a + b)[..|a + b| - 1] == a + b';
      NonControlConcat(a, b');
    } else {
      assert a + b == a;
    }
  }

  /** The non-control characters of a prefix are a prefix of the non-control characters. */
  lemma NonControlPrefix(s: string, i: nat)
    requires i <= |s|
    ensures NonControl(s) == NonControl(s[..i]) + NonControl(s[i..])
  {
    assert s == s[..i] + s[i..];
    NonControlConcat(s[..i], s[i..]);
  }

  /** Some character is not a control character when the non-control characters are not empty. */
  lemma {:induction false} FirstNonControl(data: string) returns (j: nat)
    requires |NonControl(data)| >= 1
    ensures j < |data| && !IsControl(data[j])
  {
    var n := |data| - 1;
    if !IsControl(data[n]) {
      j := n;
    } else {
      j := FirstNonControl(data[..n]);
    }
  }

  /** A control character adds nothing to the non-control characters. */
  lemma SkippedControl(data: string, i: nat)
    requires i < |data| && IsControl(data[i])
    ensures NonControl(data[..i + 1]) == NonControl(data[..i])
  {
    assert data[..i + 1][..i] == data[..i];
  }

  /** A non-control character at i is the next non-control character. */
  lemma NextNonControl(data: string, i: nat, n: nat)
    requires i < |data| && !IsControl(data[i])
    requires |NonControl(data[..i])| == n
    ensures n < |NonControl(data)| && NonControl(data)[n] == data[i]
    ensures |NonControl(data[..i + 1])| == n + 1
  {
    assert data[..i + 1][..i] == data[..i];
    NonControlPrefix(data, i + 1);
  }

  /** How far the first pass has got in data[..i]: `position` is that of `prev`, the last non-control character read. */
  ghost predicate Scanned(data: string, i: nat, position: nat, prev: char) {
    && i <= |data| && position < |NonControl(data)|
    && |NonControl(data[..i])| == position + 1 && prev == NonControl(data)[position]
  }

  /** After the whole input, the position is that of the last non-control character. */
  lemma PassEnd(data: string, i: nat, position: nat)
    requires i == |data| && |NonControl(data[..i])| == position + 1
    ensures position == |NonControl(data)| - 1
  {
    assert data[..i] == data;
  }

  /** The dinucleotide at position k, lower-cased as the first pass looks it up. */
  function Dinuc(d: string, k: int): string
    requires 0 <= k && k + 2 <= |d|
  {
    LowerString(d[k..k + 2])
  }

  lemma DinucAt(d: string, k: nat, a: char, b: char)
    requires k + 1 < |d| && d[k] == a && d[k + 1] == b
    ensures Dinuc(d, k) == LowerString([a, b])
  {
    assert d[k..k + 2] == [a, b];
  }

  /** What the bonds output gets for a dinucleotide. */
  function DinucGlyph(bondOf: map<string, Bond>, dinuc: string): (r: string)
    ensures |r| == 2
    ensures r == NoBondGlyph <==> dinuc !in bondOf
  {
    if dinuc in bondOf then (NoBondGlyphIsNotABond(bondOf[dinuc]); ToPrint(bondOf[dinuc])) else NoBondGlyph
  }

  /** What the B types output gets for a dinucleotide. */
  function BTypeLetter(bondOf: map<string, Bond>, btypeOf: map<string, char>, dinuc: string): char
    requires bondOf.Keys <= btypeOf.Keys
  {
    if dinuc in bondOf then ToLower(btypeOf[dinuc]) else '-'
  }

  /** The circuits after the dinucleotide at `pos`: processBond for a known one, finalizeCircuits otherwise. */
  function StepCircuits(st: CircuitState, bondOf: map<string, Bond>, dinuc: string, pos: int): (r: CircuitState)
    requires Inv(st) && Before(st, pos) && pos >= 0
    ensures Inv(r) && NotAfter(r, pos)
    ensures dinuc !in bondOf ==> r.one.at == NONE && r.two.at == NONE
  {
    if dinuc in bondOf then
      var b := bondOf[dinuc];
      AfterBond(st, HasOrthogonalBond(b), HasTopCoaxialBond(b), HasBottomCoaxialBond(b), pos)
    else AfterFinalizeBoth(st, pos)
  }

  /**
   * The first pass over the non-control characters `d`, where every
   * dinucleotide d[k], d[k+1] is handled at position k: the bonds output
   * after the first n dinucleotides, two characters each.
   */
  function BondsOut(bondOf: map<string, Bond>, d: string, n: nat): (r: string)
    requires n < |d|
    ensures |r| == 2 * n
  {
    if n == 0 then [] else BondsOut(bondOf, d, n - 1) + DinucGlyph(bondOf, Dinuc(d, n - 1))
  }

  /** The B types output after the first n dinucleotides, one character each. */
  function BTypesOut(bondOf: map<string, Bond>, btypeOf: map<string, char>, d: string, n: nat): (r: string)
    requires bondOf.Keys <= btypeOf.Keys && n < |d|
    ensures |r| == n
  {
    if n == 0 then [] else BTypesOut(bondOf, btypeOf, d, n - 1) + [BTypeLetter(bondOf, btypeOf, Dinuc(d, n - 1))]
  }

  /** The circuits after the first n dinucleotides, positions 0 to n - 1. */
  function CircuitsAfter(bondOf: map<string, Bond>, d: string, n: nat): (r: CircuitState)
    requires n < |d|
    ensures Inv(r) && Before(r, n)
  {
    if n == 0 then InitialIsValid(0); Initial
    else
      var c := StepCircuits(CircuitsAfter(bondOf, d, n - 1), bondOf, Dinuc(d, n - 1), n - 1);
      NotAfterThenBefore(c, n - 1, n);
      c
  }

  /** One more dinucleotide: each output is extended by what the dinucleotide prev, c at position n gives. */
  lemma PassStep(bondOf: map<string, Bond>, btypeOf: map<string, char>, d: string, n: nat, prev: char, c: char)
    requires bondOf.Keys <= btypeOf.Keys && n + 1 < |d| && d[n] == prev && d[n + 1] == c
    ensures BondsOut(bondOf, d, n + 1) == BondsOut(bondOf, d, n) + DinucGlyph(bondOf, LowerString([prev, c]))
    ensures BTypesOut(bondOf, btypeOf, d, n + 1) == BTypesOut(bondOf, btypeOf, d, n) + [BTypeLetter(bondOf, btypeOf, LowerString([prev, c]))]
    ensures CircuitsAfter(bondOf, d, n + 1) == StepCircuits(CircuitsAfter(bondOf, d, n), bondOf, LowerString([prev, c]), n)
  {
    DinucAt(d, n, prev, c);
  }

  /** An unknown dinucleotide leaves both circuits closed. */
  lemma UnknownDinucCloses(bondOf: map<string, Bond>, d: string, n: nat)
    requires 0 < n < |d| && Dinuc(d, n - 1) !in bondOf
    ensures CircuitsAfter(bondOf, d, n).one.at == NONE && CircuitsAfter(bondOf, d, n).two.at == NONE
  {
  }

  /** Characters 2k and 2k+1 of the bonds output are the glyph of the dinucleotide at position k. */
  lemma {:induction false} BondsAt(bondOf: map<string, Bond>, d: string, n: nat, k: nat)
    requires k < n < |d|
    ensures BondsOut(bondOf, d, n)[2 * k..2 * k + 2] == DinucGlyph(bondOf, Dinuc(d, k))
  {
    if k < n - 1 {
      BondsAt(bondOf, d, n - 1, k);
      SliceOfFront(BondsOut(bondOf, d, n - 1), DinucGlyph(bondOf, Dinuc(d, n - 1)), 2 * k, 2 * k + 2);
    } else {
      BondsAtLast(bondOf, d, n);
    }
  }

  /** The last two characters of the bonds output are the glyph of the last dinucleotide. */
  lemma BondsAtLast(bondOf: map<string, Bond>, d: string, n: nat)
    requires 0 < n < |d|
    ensures BondsOut(bondOf, d, n)[2 * (n - 1)..2 * n] == DinucGlyph(bondOf, Dinuc(d, n - 1))
  {
    SliceOfBack(BondsOut(bondOf, d, n - 1), DinucGlyph(bondOf, Dinuc(d, n - 1)));
  }

  lemma SliceOfFront(p: string, g: string, i: nat, j: nat)
    requires i <= j <= |p|
    ensures (p + g)[i..j] == p[i..j]
  {
  }

  lemma SliceOfBack(p: string, g: string)
    ensures (p + g)[|p|..|p| + |g|] == g
  {
  }

  /** Character k of the B types output is the B type letter of the dinucleotide at position k. */
  lemma {:induction false} BTypesAt(bondOf: map<string, Bond>, btypeOf: map<string, char>, d: string, n: nat, k: nat)
    requires bondOf.Keys <= btypeOf.Keys && k < n < |d|
    ensures BTypesOut(bondOf, btypeOf, d, n)[k] == BTypeLetter(bondOf, btypeOf, Dinuc(d, k))
  {
    if k < n - 1 {
      BTypesAt(bondOf, btypeOf, d, n - 1, k);
    }
  }

  class TopStopWork {
    var config: map<string, string>
    var dinuc2BType: map<string, char>
    var dinuc2Bond: map<string, Bond>

    function Current(): Tables
      reads this
    {
      Tables(config, dinuc2BType, dinuc2Bond)
    }

    /** The dictionaries agree on their dinucleotides, as ReadConfig leaves them. */
    predicate Valid()
      reads this
    {
      Consistent(Current())
    }

    constructor ()
      ensures Current() == NoTables && Valid()
    {
      config, dinuc2BType, dinuc2Bond := map[], map[], map[];
    }

    /**
     * ReadConfig over the lines of the CONFIG file. Returns false where the
     * source throws; the dictionaries are then partly filled.
     */
    method ReadConfig(lines: seq<string>) returns (ok: bool)
      modifies this
      ensures ok <==> ConfigLines(old(Current()), lines).Ok?
      ensures ok ==> Current() == ConfigLines(old(Current()), lines).value
      ensures ok && old(Valid()) ==> Valid()
    {
      ghost var before := Current();
      var i := 0;
      while i < |lines|
        invariant 0 <= i <= |lines|
        invariant ConfigLines(before, lines[..i]) == Ok(Current())
      {
        assert lines[..i + 1][..i] == lines[..i];
        ok := ReadConfigLine(lines[i]);
        if !ok {
          FailureStops(before, lines, i + 1);
          return;
        }
        i := i + 1;
      }
      assert lines[..i] == lines;
      ok := true;
    }

    /** The body of ReadConfig's loop for one line. */
    method ReadConfigLine(line: string) returns (ok: bool)
      modifies this
      ensures ok <==> ConfigLine(old(Current()), line).Ok?
      ensures ok ==> Current() == ConfigLine(old(Current()), line).value
    {
      var trimmed := Trim(line);
      ok := true;
      if |trimmed| >= 1 && trimmed[0] != '>' {
        var words := Split(trimmed, WordSeparators);
        var dinuc := words[0];
        if |dinuc| != 2 {
          ok := SetParameter(dinuc);
        } else {
          ok := SetDinuc(words);
        }
      }
    }

    method SetParameter(word: string) returns (ok: bool)
      modifies this
      ensures ok <==> ParameterLine(old(Current()), word).Ok?
      ensures ok ==> Current() == ParameterLine(old(Current()), word).value
    {
      var kv := Split(word, {'='});
      if |kv| != 2 {
        return false;
      }
      config := config[kv[0] := kv[1]];
      ok := true;
    }

    method SetDinuc(words: seq<string>) returns (ok: bool)
      requires |words| >= 1 && |words[0]| == 2
      modifies this
      ensures ok <==> DinucLine(old(Current()), words).Ok?
      ensures ok ==> Current() == DinucLine(old(Current()), words).value
    {
      var dinuc := words[0];
      if dinuc in dinuc2BType {
        return true;
      }
      if |words| < 2 || |words[1]| == 0 {
        return false;
      }
      var bt := UpperString(words[1])[0];
      dinuc2BType := dinuc2BType[dinuc := bt];
      if |words| < 3 {
        return false;
      }
      var bond := ParseBond(RewriteGlyphs(words[2]));
      if bond.None? {
        return false;
      }
      dinuc2Bond := dinuc2Bond[dinuc := bond.value];
      ok := true;
    }
  }

  /**
   * The first pass of ProcessFile over the input after its header, with the
   * dictionaries Dinuc2Bond (bondOf) and Dinuc2BType (btypeOf): every
   * non-control character after the first forms a dinucleotide with the
   * non-control character before it. A known dinucleotide writes its bond
   * glyph and lower-cased B type and goes through processBond; an unknown
   * one writes ".x" and "-" and closes both circuits. The pass ends with
   * finalizeCircuits at the last position.
   */
  method FirstPass(bondOf: map<string, Bond>, btypeOf: map<string, char>, data: string)
    returns (bonds: string, btypes: string, tracker: Tracker, topstopLength: int)
    requires bondOf.Keys <= btypeOf.Keys && |NonControl(data)| >= 1
    ensures fresh(tracker)
    ensures 0 <= topstopLength == |NonControl(data)| - 1
    ensures bonds == BondsOut(bondOf, NonControl(data), topstopLength)
    ensures btypes == BTypesOut(bondOf, btypeOf, NonControl(data), topstopLength)
    ensures tracker.State() == AfterFinalizeBoth(CircuitsAfter(bondOf, NonControl(data), topstopLength), topstopLength)
  {
    ghost var d := NonControl(data);
    var i := SkipControls(data);
    var prev := data[i];
    NextNonControl(data, i, 0);
    i := i + 1;
    var position := 0;
    bonds, btypes := [], [];
    tracker := new Tracker();
    while i < |data|
      invariant 0 < i <= |data| && fresh(tracker)
      invariant Scanned(data, i, position, prev)
      invariant bonds == BondsOut(bondOf, d, position)
      invariant btypes == BTypesOut(bondOf, btypeOf, d, position)
      invariant tracker.State() == CircuitsAfter(bondOf, d, position)
    {
      position, prev, bonds, btypes := PassChar(bondOf, btypeOf, data, i, position, prev, bonds, btypes, tracker);
      i := i + 1;
    }
    PassEnd(data, i, position);
    tracker.FinalizeCircuits(position);
    topstopLength := position;
  }

  /** One character of the first pass: a control character is skipped, any other ends the dinucleotide prev, c. */
  method PassChar(bondOf: map<string, Bond>, btypeOf: map<string, char>, data: string, i: nat, position: nat,
                  prev: char, bonds: string, btypes: string, tracker: Tracker)
    returns (position': nat, prev': char, bonds': string, btypes': string)
    requires bondOf.Keys <= btypeOf.Keys && i < |data| && Scanned(data, i, position, prev)
    requires bonds == BondsOut(bondOf, NonControl(data), position)
    requires btypes == BTypesOut(bondOf, btypeOf, NonControl(data), position)
    requires tracker.State() == CircuitsAfter(bondOf, NonControl(data), position)
    modifies tracker
    ensures Scanned(data, i + 1, position', prev')
    ensures bonds' == BondsOut(bondOf, NonControl(data), position')
    ensures btypes' == BTypesOut(bondOf, btypeOf, NonControl(data), position')
    ensures tracker.State() == CircuitsAfter(bondOf, NonControl(data), position')
  {
    var c := data[i];
    if IsControl(c) {
      SkippedControl(data, i);
      position', prev', bonds', btypes' := position, prev, bonds, btypes;
    } else {
      NextNonControl(data, i, position + 1);
      bonds', btypes' := Advance(bondOf, btypeOf, NonControl(data), position, prev, c, bonds, btypes, tracker);
      position', prev' := position + 1, c;
    }
  }

  /** The dinucleotide prev, c at `position` extends each output of the first pass and moves the circuits. */
  method Advance(bondOf: map<string, Bond>, btypeOf: map<string, char>, ghost d: string, position: nat,
                 prev: char, c: char, bonds: string, btypes: string, tracker: Tracker)
    returns (bonds': string, btypes': string)
    requires bondOf.Keys <= btypeOf.Keys
    requires position + 1 < |d| && d[position] == prev && d[position + 1] == c
    requires bonds == BondsOut(bondOf, d, position)
    requires btypes == BTypesOut(bondOf, btypeOf, d, position)
    requires tracker.State() == CircuitsAfter(bondOf, d, position)
    modifies tracker
    ensures bonds' == BondsOut(bondOf, d, position + 1)
    ensures btypes' == BTypesOut(bondOf, btypeOf, d, position + 1)
    ensures tracker.State() == CircuitsAfter(bondOf, d, position + 1)
  {
    PassStep(bondOf, btypeOf, d, position, prev, c);
    var glyph, letter := HandleDinuc(bondOf, btypeOf, LowerString([prev, c]), tracker, position);
    bonds', btypes' := bonds + glyph, btypes + [letter];
  }

  /** The prefill: the index of the first non-control character. */
  method SkipControls(data: string) returns (i: int)
    requires |NonControl(data)| >= 1
    ensures 0 <= i < |data| && !IsControl(data[i]) && |NonControl(data[..i])| == 0
  {
    ghost var first := FirstNonControl(data);
    i := 0;
    while IsControl(data[i])
      invariant 0 <= i <= first && |NonControl(data[..i])| == 0
      decreases first - i
    {
      SkippedControl(data, i);
      i := i + 1;
    }
  }

  /** The body of the first pass for one dinucleotide at `position`. */
  method HandleDinuc(bondOf: map<string, Bond>, btypeOf: map<string, char>, dinuc: string, tracker: Tracker, position: int)
    returns (glyph: string, letter: char)
    requires bondOf.Keys <= btypeOf.Keys && position >= 0
    requires Inv(tracker.State()) && Before(tracker.State(), position)
    modifies tracker
    ensures glyph == DinucGlyph(bondOf, dinuc)
    ensures letter == BTypeLetter(bondOf, btypeOf, dinuc)
    ensures tracker.State() == StepCircuits(old(tracker.State()), bondOf, dinuc, position)
  {
    if dinuc in bondOf {
      var bond := bondOf[dinuc];
      var bt := btypeOf[dinuc];
      glyph := ToPrint(bond);
      letter := ToLower(bt);
      tracker.ProcessBond(bond, position);
    } else {
      glyph := NoBondGlyph;
      letter := '-';
      tracker.FinalizeCircuits(position);
    }
  }
}
