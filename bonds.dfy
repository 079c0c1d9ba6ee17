/**
 * The enumerations of the topstop machine (BOND, TOPSTOP and the circuit
 * position) and the pure predicates and printers over them.
 */
module Bonds {
  import opened Wrappers
  import opened Chars

  /** A dinucleotide bond: orthogonal (I) or not (O), and which coaxial bonds it has. */
  datatype Bond = I_TOP | I_BOTH | I_BOTTOM | I_NONE | O_TOP | O_BOTH | O_BOTTOM | O_NONE

  /** The status printed at a position of the topstop sequence. */
  datatype TopStop = S | I | P | Y | X

  /** Where a circuit currently runs. */
  datatype CircuitPosition = NONE | TOP | BOTTOM | BOTH

  /** The enum member's identifier, as `Enum.TryParse` reads it. */
  function Name(b: Bond): string {
    match b
    case I_TOP => "I_TOP"
    case I_BOTH => "I_BOTH"
    case I_BOTTOM => "I_BOTTOM"
    case I_NONE => "I_NONE"
    case O_TOP => "O_TOP"
    case O_BOTH => "O_BOTH"
    case O_BOTTOM => "O_BOTTOM"
    case O_NONE => "O_NONE"
  }

  predicate EndsWith(s: string, suffix: string) {
    |suffix| <= |s| && s[|s| - |suffix|..] == suffix
  }

  /** True exactly for the bonds whose name starts with `I`: the four orthogonal ones. */
  function HasOrthogonalBond(b: Bond): (r: bool)
    ensures r <==> Name(b)[0] == 'I'
  {
    match b
    case I_TOP | I_BOTH | I_BOTTOM | I_NONE => true
    case _ => false
  }

  /** True exactly for the *_TOP and *_BOTH bonds. */
  function HasTopCoaxialBond(b: Bond): (r: bool)
    ensures r <==> EndsWith(Name(b), "_TOP") || EndsWith(Name(b), "_BOTH")
  {
    match b
    case I_TOP | I_BOTH | O_TOP | O_BOTH => true
    case _ => false
  }

  /** True exactly for the *_BOTTOM and *_BOTH bonds. */
  function HasBottomCoaxialBond(b: Bond): (r: bool)
    ensures r <==> EndsWith(Name(b), "_BOTTOM") || EndsWith(Name(b), "_BOTH")
  {
    match b
    case I_BOTH | I_BOTTOM | O_BOTH | O_BOTTOM => true
    case _ => false
  }

  /** Every character `c` of `s` replaced by the string `t` (an ordinal `string.Replace`). */
  function ReplaceChar(s: string, c: char, t: string): (r: string)
    ensures |t| == 1 ==> |r| == |s|
  {
    if |s| == 0 then []
    else (if s[0] == c then t else [s[0]]) + ReplaceChar(s[1..], c, t)
  }

  /** A replacement text without the character removes it. */
  lemma {:induction false} ReplaceCharRemoves(s: string, c: char, t: string)
    requires c !in t
    ensures c !in ReplaceChar(s, c, t)
  {
    if |s| > 0 {
      ReplaceCharRemoves(s[1..], c, t);
    }
  }

  /** A character in neither `s` nor `t` is not in `s` with `c` replaced by `t`. */
  lemma {:induction false} ReplaceCharAbsent(s: string, c: char, t: string, x: char)
    requires x !in s && x !in t
    ensures x !in ReplaceChar(s, c, t)
  {
    if |s| > 0 {
      ReplaceCharAbsent(s[1..], c, t, x);
    }
  }

  /**
   * The rewriting ReadConfig applies to a bond description before parsing it:
   * 0 -> O, | -> I, ^ -> _TOP, v -> _BOTTOM, = -> _BOTH, : -> _NONE.
   */
  function RewriteGlyphs(s: string): string {
    var a := ReplaceChar(s, '0', "O");
    var b := ReplaceChar(a, '|', "I");
    var c := ReplaceChar(b, '^', "_TOP");
    var d := ReplaceChar(c, 'v', "_BOTTOM");
    var e := ReplaceChar(d, '=', "_BOTH");
    ReplaceChar(e, ':', "_NONE")
  }

  /** The six glyphs a bond description may use. */
  predicate IsGlyph(ch: char) {
    ch == '0' || ch == '|' || ch == '^' || ch == 'v' || ch == '=' || ch == ':'
  }

  predicate NoGlyph(s: string) {
    forall i :: 0 <= i < |s| ==> !IsGlyph(s[i])
  }

  /**
   * The two-character glyph written to the BONDS file: `I` or `0` for the
   * orthogonal bond, then `^`, `v`, `=` or `:` for the coaxial bonds.
   */
  function ToPrint(b: Bond): (r: string)
    ensures |r| == 2
    ensures r[0] == (if HasOrthogonalBond(b) then 'I' else '0')
    ensures r[1] in "^v=:"
    ensures (r[1] == '^' || r[1] == '=') <==> HasTopCoaxialBond(b)
    ensures (r[1] == 'v' || r[1] == '=') <==> HasBottomCoaxialBond(b)
  {
    match b
    case I_TOP => "I^"
    case I_BOTH => "I="
    case I_BOTTOM => "Iv"
    case I_NONE => "I:"
    case O_TOP => "0^"
    case O_BOTH => "0="
    case O_BOTTOM => "0v"
    case O_NONE => "0:"
  }

  /** Replacing a character that does not occur changes nothing. */
  lemma {:induction false} ReplaceAbsent(s: string, c: char, t: string)
    requires forall i :: 0 <= i < |s| ==> s[i] != c
    ensures ReplaceChar(s, c, t) == s
  {
    if |s| > 0 {
      ReplaceAbsent(s[1..], c, t);
    }
  }

  /** RewriteGlyphs, one replacement at a time. */
  lemma Chain(s: string, a: string, b: string, c: string, d: string, e: string, f: string)
    requires ReplaceChar(s, '0', "O") == a && ReplaceChar(a, '|', "I") == b
    requires ReplaceChar(b, '^', "_TOP") == c && ReplaceChar(c, 'v', "_BOTTOM") == d
    requires ReplaceChar(d, '=', "_BOTH") == e && ReplaceChar(e, ':', "_NONE") == f
    ensures RewriteGlyphs(s) == f
  {
  }

  /** Replacing a character by a text without glyphs brings no glyph in. */
  lemma ReplaceKeepsGlyphsOut(s: string, c: char, t: string)
    requires NoGlyph(t)
    ensures '0' !in s ==> '0' !in ReplaceChar(s, c, t)
    ensures '|' !in s ==> '|' !in ReplaceChar(s, c, t)
    ensures '^' !in s ==> '^' !in ReplaceChar(s, c, t)
    ensures 'v' !in s ==> 'v' !in ReplaceChar(s, c, t)
    ensures '=' !in s ==> '=' !in ReplaceChar(s, c, t)
    ensures ':' !in s ==> ':' !in ReplaceChar(s, c, t)
    ensures IsGlyph(c) ==> c !in ReplaceChar(s, c, t)
  {
    if IsGlyph(c) { ReplaceCharRemoves(s, c, t); }
    if '0' !in s { ReplaceCharAbsent(s, c, t, '0'); }
    if '|' !in s { ReplaceCharAbsent(s, c, t, '|'); }
    if '^' !in s { ReplaceCharAbsent(s, c, t, '^'); }
    if 'v' !in s { ReplaceCharAbsent(s, c, t, 'v'); }
    if '=' !in s { ReplaceCharAbsent(s, c, t, '='); }
    if ':' !in s { ReplaceCharAbsent(s, c, t, ':'); }
  }

  /** The six replacement texts hold no glyph. */
  lemma ReplacementsHaveNoGlyph()
    ensures NoGlyph("O") && NoGlyph("I") && NoGlyph("_TOP")
    ensures NoGlyph("_BOTTOM") && NoGlyph("_BOTH") && NoGlyph("_NONE")
  {
  }

  /** Each replacement removes its glyph and brings none back, so none is left. */
  lemma RewriteRemovesGlyphs(s: string)
    ensures NoGlyph(RewriteGlyphs(s))
  {
    var a := ReplaceChar(s, '0', "O");
    var b := ReplaceChar(a, '|', "I");
    var c := ReplaceChar(b, '^', "_TOP");
    var d := ReplaceChar(c, 'v', "_BOTTOM");
    var e := ReplaceChar(d, '=', "_BOTH");
    var f := ReplaceChar(e, ':', "_NONE");
    ReplacementsHaveNoGlyph();
    ReplaceKeepsGlyphsOut(s, '0', "O");
    ReplaceKeepsGlyphsOut(a, '|', "I");
    ReplaceKeepsGlyphsOut(b, '^', "_TOP");
    ReplaceKeepsGlyphsOut(c, 'v', "_BOTTOM");
    ReplaceKeepsGlyphsOut(d, '=', "_BOTH");
    ReplaceKeepsGlyphsOut(e, ':', "_NONE");
    Chain(s, a, b, c, d, e, f);
  }

  /** A description without glyphs, such as an enum name, is left as it is. */
  lemma RewriteKeepsNames(s: string)
    requires NoGlyph(s)
    ensures RewriteGlyphs(s) == s
  {
    ReplaceAbsent(s, '0', "O");
    ReplaceAbsent(s, '|', "I");
    ReplaceAbsent(s, '^', "_TOP");
    ReplaceAbsent(s, 'v', "_BOTTOM");
    ReplaceAbsent(s, '=', "_BOTH");
    ReplaceAbsent(s, ':', "_NONE");
    Chain(s, s, s, s, s, s, s);
  }

  // The six one-character rewrites. They take the characters as parameters
  // rather than as literals, which keeps the solver from evaluating every
  // replacement on every literal in sight.

  lemma RewriteI(g: string)
    requires |g| == 1 && g[0] == 'I'
    ensures RewriteGlyphs(g) == g
  {
    ReplaceAbsent(g, '0', "O");
    ReplaceAbsent(g, '|', "I");
    ReplaceAbsent(g, '^', "_TOP");
    ReplaceAbsent(g, 'v', "_BOTTOM");
    ReplaceAbsent(g, '=', "_BOTH");
    ReplaceAbsent(g, ':', "_NONE");
    Chain(g, g, g, g, g, g, g);
  }

  lemma RewriteZero(g: string, t: string)
    requires |g| == 1 && g[0] == '0'
    requires |t| == 1 && t[0] == 'O'
    ensures RewriteGlyphs(g) == t
  {
    assert ReplaceChar(g, '0', "O") == t;
    ReplaceAbsent(t, '|', "I");
    ReplaceAbsent(t, '^', "_TOP");
    ReplaceAbsent(t, 'v', "_BOTTOM");
    ReplaceAbsent(t, '=', "_BOTH");
    ReplaceAbsent(t, ':', "_NONE");
    Chain(g, t, t, t, t, t, t);
  }

  lemma RewriteTop(g: string, t: string)
    requires |g| == 1 && g[0] == '^'
    requires |t| == 4 && t[0] == '_' && t[1] == 'T' && t[2] == 'O' && t[3] == 'P'
    ensures RewriteGlyphs(g) == t
  {
    ReplaceAbsent(g, '0', "O");
    ReplaceAbsent(g, '|', "I");
    assert ReplaceChar(g, '^', "_TOP") == t;
    ReplaceAbsent(t, 'v', "_BOTTOM");
    ReplaceAbsent(t, '=', "_BOTH");
    ReplaceAbsent(t, ':', "_NONE");
    Chain(g, g, g, t, t, t, t);
  }

  lemma RewriteBottom(g: string, t: string)
    requires |g| == 1 && g[0] == 'v'
    requires |t| == 7 && t[0] == '_' && t[1] == 'B' && t[2] == 'O' && t[3] == 'T'
    requires t[4] == 'T' && t[5] == 'O' && t[6] == 'M'
    ensures RewriteGlyphs(g) == t
  {
    ReplaceAbsent(g, '0', "O");
    ReplaceAbsent(g, '|', "I");
    ReplaceAbsent(g, '^', "_TOP");
    assert ReplaceChar(g, 'v', "_BOTTOM") == t;
    ReplaceAbsent(t, '=', "_BOTH");
    ReplaceAbsent(t, ':', "_NONE");
    Chain(g, g, g, g, t, t, t);
  }

  lemma RewriteBoth(g: string, t: string)
    requires |g| == 1 && g[0] == '='
    requires |t| == 5 && t[0] == '_' && t[1] == 'B' && t[2] == 'O' && t[3] == 'T' && t[4] == 'H'
    ensures RewriteGlyphs(g) == t
  {
    ReplaceAbsent(g, '0', "O");
    ReplaceAbsent(g, '|', "I");
    ReplaceAbsent(g, '^', "_TOP");
    ReplaceAbsent(g, 'v', "_BOTTOM");
    assert ReplaceChar(g, '=', "_BOTH") == t;
    ReplaceAbsent(t, ':', "_NONE");
    Chain(g, g, g, g, g, t, t);
  }

  lemma RewriteNone(g: string, t: string)
    requires |g| == 1 && g[0] == ':'
    requires |t| == 5 && t[0] == '_' && t[1] == 'N' && t[2] == 'O' && t[3] == 'N' && t[4] == 'E'
    ensures RewriteGlyphs(g) == t
  {
    ReplaceAbsent(g, '0', "O");
    ReplaceAbsent(g, '|', "I");
    ReplaceAbsent(g, '^', "_TOP");
    ReplaceAbsent(g, 'v', "_BOTTOM");
    ReplaceAbsent(g, '=', "_BOTH");
    assert ReplaceChar(g, ':', "_NONE") == t;
    Chain(g, g, g, g, g, g, t);
  }

  lemma {:induction false} ReplaceConcat(s: string, u: string, c: char, t: string)
    ensures ReplaceChar(s + u, c, t) == ReplaceChar(s, c, t) + ReplaceChar(u, c, t)
  {
    if |s| == 0 {
      assert s + u == u;
    } else {
      assert (s + u)[0] == s[0];
      assert (s + u)[1..] == s[1..] + u;
      ReplaceConcat(s[1..], u, c, t);
    }
  }

  /** The rewriting works piece by piece. */
  lemma RewriteConcat(s: string, u: string)
    ensures RewriteGlyphs(s + u) == RewriteGlyphs(s) + RewriteGlyphs(u)
  {
    ReplaceConcat(s, u, '0', "O");
    var s1, u1 := ReplaceChar(s, '0', "O"), ReplaceChar(u, '0', "O");
    ReplaceConcat(s1, u1, '|', "I");
    var s2, u2 := ReplaceChar(s1, '|', "I"), ReplaceChar(u1, '|', "I");
    ReplaceConcat(s2, u2, '^', "_TOP");
    var s3, u3 := ReplaceChar(s2, '^', "_TOP"), ReplaceChar(u2, '^', "_TOP");
    ReplaceConcat(s3, u3, 'v', "_BOTTOM");
    var s4, u4 := ReplaceChar(s3, 'v', "_BOTTOM"), ReplaceChar(u3, 'v', "_BOTTOM");
    ReplaceConcat(s4, u4, '=', "_BOTH");
    var s5, u5 := ReplaceChar(s4, '=', "_BOTH"), ReplaceChar(u4, '=', "_BOTH");
    ReplaceConcat(s5, u5, ':', "_NONE");
  }

  /** A two-character glyph rewrites to the rewrites of its characters, concatenated. */
  lemma RewritePair(g: string, o: string, t: string, name: string)
    requires |g| == 2 && RewriteGlyphs(g[..1]) == o && RewriteGlyphs(g[1..]) == t && name == o + t
    ensures RewriteGlyphs(g) == name
  {
    assert g == g[..1] + g[1..];
    RewriteConcat(g[..1], g[1..]);
  }

  /** The first character of the glyph rewrites to the first character of the name. */
  lemma RewriteFirst(b: Bond)
    ensures RewriteGlyphs(ToPrint(b)[..1]) == Name(b)[..1]
  {
    if HasOrthogonalBond(b) { RewriteI(ToPrint(b)[..1]); } else { RewriteZero(ToPrint(b)[..1], Name(b)[..1]); }
  }

  /** The second character of the glyph rewrites to the rest of the name. */
  lemma RewriteSecond(b: Bond)
    ensures RewriteGlyphs(ToPrint(b)[1..]) == Name(b)[1..]
  {
    var g, t := ToPrint(b)[1..], Name(b)[1..];
    match b
    case I_TOP => RewriteTop(g, t);
    case I_BOTH => RewriteBoth(g, t);
    case I_BOTTOM => RewriteBottom(g, t);
    case I_NONE => RewriteNone(g, t);
    case O_TOP => RewriteTop(g, t);
    case O_BOTH => RewriteBoth(g, t);
    case O_BOTTOM => RewriteBottom(g, t);
    case O_NONE => RewriteNone(g, t);
  }

  /** Rewriting a printed glyph with ReadConfig's replacements yields the bond's enum name. */
  lemma GlyphRewritesToName(b: Bond)
    ensures RewriteGlyphs(ToPrint(b)) == Name(b)
  {
    var n := Name(b);
    RewriteFirst(b);
    RewriteSecond(b);
    assert n == n[..1] + n[1..];
    RewritePair(ToPrint(b), n[..1], n[1..], n);
  }

  /** Distinct bonds print distinct glyphs. */
  lemma ToPrintInjective(a: Bond, b: Bond)
    requires ToPrint(a) == ToPrint(b)
    ensures a == b
  {
    GlyphRewritesToName(a);
    GlyphRewritesToName(b);
  }

  /** The glyph written for a dinucleotide with no configured bond. */
  const NoBondGlyph: string := ".x"

  /** The glyph of an unknown dinucleotide is not the glyph of any bond. */
  lemma NoBondGlyphIsNotABond(b: Bond)
    ensures ToPrint(b) != NoBondGlyph
  {
    assert ToPrint(b)[0] != '.';
  }

  /**
   * Case-insensitive parse of a bond name (`Enum.TryParse` with `ignoreCase`):
   * the upper-cased text must be one of the eight names.
   */
  function ParseBond(s: string): (r: Option<Bond>)
    ensures r.Some? ==> UpperString(s) == Name(r.value)
    ensures r.None? ==> forall b: Bond :: UpperString(s) != Name(b)
  {
    var u := UpperString(s);
    if u == "I_TOP" then Some(I_TOP)
    else if u == "I_BOTH" then Some(I_BOTH)
    else if u == "I_BOTTOM" then Some(I_BOTTOM)
    else if u == "I_NONE" then Some(I_NONE)
    else if u == "O_TOP" then Some(O_TOP)
    else if u == "O_BOTH" then Some(O_BOTH)
    else if u == "O_BOTTOM" then Some(O_BOTTOM)
    else if u == "O_NONE" then Some(O_NONE)
    else None
  }

  /** Upper-casing a text without lower-case letters leaves it as it is. */
  lemma {:induction false} UpperStringFixes(s: string)
    requires forall i :: 0 <= i < |s| ==> !('a' <= s[i] <= 'z')
    ensures UpperString(s) == s
  {
    if |s| > 0 {
      UpperStringFixes(s[1..]);
    }
  }

  /** A bond's own name parses back to it. */
  lemma ParseName(b: Bond)
    ensures ParseBond(Name(b)) == Some(b)
  {
    var n := Name(b);
    UpperStringFixes(n);
    assert UpperString(n) == n;
  }

  /** A printed glyph, rewritten and parsed, gives back its bond. */
  lemma GlyphRoundTrip(b: Bond)
    ensures ParseBond(RewriteGlyphs(ToPrint(b))) == Some(b)
  {
    GlyphRewritesToName(b);
    ParseName(b);
  }

  /** The status letter written to the TOPSTOP file. */
  function ToChar(ts: TopStop): (r: char)
    ensures r in "sipyx"
    ensures FromChar(r) == Some(ts)
  {
    match ts
    case S => 's'
    case I => 'i'
    case P => 'p'
    case Y => 'y'
    case X => 'x'
  }

  /** The status a TOPSTOP letter stands for, if any. */
  function FromChar(c: char): Option<TopStop> {
    if c == 's' then Some(S)
    else if c == 'i' then Some(I)
    else if c == 'p' then Some(P)
    else if c == 'y' then Some(Y)
    else if c == 'x' then Some(X)
    else None
  }

  /** The five statuses print as five distinct letters. */
  lemma ToCharInjective(a: TopStop, b: TopStop)
    requires ToChar(a) == ToChar(b)
    ensures a == b
  {
    assert FromChar(ToChar(a)) == Some(a);
  }
}
