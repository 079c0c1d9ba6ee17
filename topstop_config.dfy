/**
 * ReadConfig of TopStopWork: the line rules of the CONFIG file, which fill the
 * parameter dictionary and map each dinucleotide to a B type letter and a
 * bond. A config file is `parameter=value` lines and `dinuc btype glyph` lines.
 */
module TopStopConfig {
  import opened Wrappers
  import opened Chars
  import opened Text
  import opened Bonds

  /** The three dictionaries ReadConfig fills. */
  datatype Tables = Tables(config: map<string, string>, btype: map<string, char>, bond: map<string, Bond>)

  const NoTables := Tables(map[], map[], map[])

  /** Every configured dinucleotide has both a B type and a bond, and is two characters long. */
  predicate Consistent(t: Tables) {
    && t.bond.Keys == t.btype.Keys
    && forall d :: d in t.btype ==> |d| == 2
  }

  /** t2 keeps every dinucleotide t already configured, unchanged. */
  predicate KeepsDinucs(t: Tables, t2: Tables) {
    && (forall d :: d in t.btype ==> d in t2.btype && t2.btype[d] == t.btype[d])
    && (forall d :: d in t.bond ==> d in t2.bond && t2.bond[d] == t.bond[d])
  }

  /** A first word that is not two characters long is a `parameter=value` setting. */
  function ParameterLine(t: Tables, word: string): (r: Result<Tables>)
    ensures r.Fail? <==> CountIn(word, {'='}) != 1
    ensures r.Ok? ==> r.value.btype == t.btype && r.value.bond == t.bond
    ensures r.Ok? ==> exists key, value :: word == key + "=" + value && r.value.config == t.config[key := value]
  {
    var kv := Split(word, {'='});
    if |kv| != 2 then Fail("does not parse")
    else
      JoinSplit(word, '=');
      assert Join(kv, '=') == kv[0] + "=" + kv[1];
      Ok(t.(config := t.config[kv[0] := kv[1]]))
  }

  /**
   * `dinuc btype glyph`: a dinucleotide seen before keeps its first
   * configuration; otherwise its B type is the upper-cased first character of
   * the second word and its bond the third word with the glyphs rewritten,
   * read as a bond name ignoring case. A missing or empty second word or a
   * missing third word is an error, as is a third word that names no bond.
   */
  function DinucLine(t: Tables, words: seq<string>): (r: Result<Tables>)
    requires |words| >= 1 && |words[0]| == 2
    ensures words[0] in t.btype ==> r == Ok(t)
    ensures r.Ok? ==> r.value.config == t.config
    ensures Consistent(t) && r.Ok? ==> KeepsDinucs(t, r.value)
    ensures r.Ok? && words[0] !in t.btype ==>
              && |words| >= 3 && |words[1]| > 0
              && r.value.btype == t.btype[words[0] := ToUpper(words[1][0])]
              && r.value.bond.Keys == t.bond.Keys + {words[0]}
              && ParseBond(RewriteGlyphs(words[2])) == Some(r.value.bond[words[0]])
    ensures Consistent(t) && r.Ok? ==> Consistent(r.value)
  {
    var dinuc := words[0];
    if dinuc in t.btype then Ok(t)
    else if |words| < 2 || |words[1]| == 0 then Fail("missing B type")
    else if |words| < 3 then Fail("missing bond")
    else
      var bt := UpperString(words[1])[0];
      match ParseBond(RewriteGlyphs(words[2]))
      case None => Fail("Could not understand Bond")
      case Some(b) => Ok(t.(btype := t.btype[dinuc := bt], bond := t.bond[dinuc := b]))
  }

  const WordSeparators: set<char> := {' ', '\t'}

  /** What one line of the CONFIG file does to the tables; blank and '>' lines change nothing. */
  function ConfigLine(t: Tables, line: string): (r: Result<Tables>)
    ensures Consistent(t) && r.Ok? ==> Consistent(r.value)
    ensures Consistent(t) && r.Ok? ==> KeepsDinucs(t, r.value)
  {
    var l := Trim(line);
    if |l| == 0 || l[0] == '>' then Ok(t)
    else
      var words := Split(l, WordSeparators);
      if |words[0]| != 2 then ParameterLine(t, words[0])
      else DinucLine(t, words)
  }

  /** The tables after the lines in order, or the failure of the first line that fails. */
  function ConfigLines(t: Tables, lines: seq<string>): (r: Result<Tables>)
    ensures Consistent(t) && r.Ok? ==> Consistent(r.value)
    ensures Consistent(t) && r.Ok? ==> KeepsDinucs(t, r.value)
  {
    if |lines| == 0 then Ok(t)
    else
      match ConfigLines(t, lines[..|lines| - 1])
      case Fail(m) => Fail(m)
      case Ok(u) => ConfigLine(u, lines[|lines| - 1])
  }

  /** A comment line or a blank line leaves the tables as they are. */
  lemma SkippedLine(t: Tables, line: string)
    requires IsBlank(line) || (!IsWhiteSpace(line[0]) && line[0] == '>')
    ensures ConfigLine(t, line) == Ok(t)
  {
    TrimEmpty(line);
    if !IsBlank(line) {
      assert TrimStart(line) == line;
    }
  }

  /** `key=value` with neither part holding '=' or white space sets config[key] to value. */
  lemma ParameterSetting(t: Tables, key: string, value: string)
    requires NoneIn(key, {'='}) && NoneIn(value, {'='})
    requires NoneIn(key, WordSeparators) && NoneIn(value, WordSeparators)
    requires |key| > 0 && !IsWhiteSpace(key[0]) && key[0] != '>'
    requires |value| > 0 && !IsWhiteSpace(value[|value| - 1])
    ensures ConfigLine(t, key + "=" + value) == Ok(t.(config := t.config[key := value]))
  {
    var line := key + "=" + value;
    assert line[0] == key[0] && line[|line| - 1] == value[|value| - 1];
    TrimKeeps(line);
    NoneInConcat(key, "=", WordSeparators);
    NoneInConcat(key + "=", value, WordSeparators);
    SplitNone(line, WordSeparators);
    SplitFirst(key, '=', value, {'='});
    SplitNone(value, {'='});
    assert Split(line, {'='}) == [key, value];
  }

  /** Three words without separators, joined by single spaces, split back into those three. */
  lemma ThreeWords(a: string, b: string, c: string)
    requires NoneIn(a, WordSeparators) && NoneIn(b, WordSeparators) && NoneIn(c, WordSeparators)
    ensures Split(a + " " + b + " " + c, WordSeparators) == [a, b, c]
  {
    assert a + " " + b + " " + c == a + [' '] + (b + [' '] + c);
    SplitFirst(a, ' ', b + [' '] + c, WordSeparators);
    SplitFirst(b, ' ', c, WordSeparators);
    SplitNone(c, WordSeparators);
  }

  /** A line of three separator-free words, the first two characters long and not starting a comment, is a dinucleotide line. */
  lemma DinucWords(t: Tables, dinuc: string, b: string, c: string)
    requires |dinuc| == 2 && dinuc[0] != '>' && !IsWhiteSpace(dinuc[0])
    requires |c| > 0 && !IsWhiteSpace(c[|c| - 1])
    requires NoneIn(dinuc, WordSeparators) && NoneIn(b, WordSeparators) && NoneIn(c, WordSeparators)
    ensures ConfigLine(t, dinuc + " " + b + " " + c) == DinucLine(t, [dinuc, b, c])
  {
    var line := dinuc + " " + b + " " + c;
    assert line[0] == dinuc[0] && line[|line| - 1] == c[|c| - 1];
    TrimKeeps(line);
    ThreeWords(dinuc, b, c);
  }

  /**
   * A dinucleotide line written with a bond's own glyph from ToPrint
   * configures that bond: the glyph round-trips through the rewriting.
   */
  lemma GlyphConfiguresBond(t: Tables, dinuc: string, bt: char, b: Bond)
    requires |dinuc| == 2 && dinuc !in t.btype && dinuc[0] != '>' && !IsWhiteSpace(dinuc[0])
    requires NoneIn(dinuc, WordSeparators) && bt != ' ' && bt != '\t'
    ensures ConfigLine(t, dinuc + " " + [bt] + " " + ToPrint(b)) ==
            Ok(t.(btype := t.btype[dinuc := ToUpper(bt)], bond := t.bond[dinuc := b]))
  {
    GlyphIsWord(b);
    OneCharWord(bt);
    DinucWords(t, dinuc, [bt], ToPrint(b));
    GlyphDinucLine(t, dinuc, bt, b);
  }

  /** A glyph is one word that does not end in white space. */
  lemma GlyphIsWord(b: Bond)
    ensures |ToPrint(b)| == 2 && NoneIn(ToPrint(b), WordSeparators) && !IsWhiteSpace(ToPrint(b)[1])
  {
    var g := ToPrint(b);
    assert g[1] == '^' || g[1] == 'v' || g[1] == '=' || g[1] == ':' by {
      assert g[1] in "^v=:";
    }
    GlyphChar(g[0]);
    GlyphChar(g[1]);
    assert NoneIn(g, WordSeparators) by {
      forall j | 0 <= j < |g|
        ensures g[j] !in WordSeparators
      {
        assert j == 0 || j == 1;
      }
    }
  }

  lemma GlyphChar(c: char)
    requires c == 'I' || c == '0' || c == '^' || c == 'v' || c == '=' || c == ':'
    ensures !IsWhiteSpace(c) && c !in WordSeparators
  {
  }

  lemma OneCharWord(c: char)
    requires c != ' ' && c != '\t'
    ensures NoneIn([c], WordSeparators)
  {
  }

  /** The three words of such a line set the B type and the bond. */
  lemma GlyphDinucLine(t: Tables, dinuc: string, bt: char, b: Bond)
    requires |dinuc| == 2 && dinuc !in t.btype
    ensures DinucLine(t, [dinuc, [bt], ToPrint(b)]) ==
            Ok(t.(btype := t.btype[dinuc := ToUpper(bt)], bond := t.bond[dinuc := b]))
  {
    GlyphRoundTrip(b);
    assert UpperString([bt])[0] == ToUpper(bt);
  }

  /** Once a dinucleotide is configured, later lines never change its configuration. */
  lemma {:induction false} FirstDinucWins(t: Tables, lines: seq<string>, k: nat, d: string)
    requires Consistent(t) && k <= |lines| && ConfigLines(t, lines).Ok?
    requires ConfigLines(t, lines[..k]).Ok? && d in ConfigLines(t, lines[..k]).value.btype
    ensures var early := ConfigLines(t, lines[..k]).value;
            var final := ConfigLines(t, lines).value;
            d in final.btype && final.btype[d] == early.btype[d] &&
            (d in early.bond ==> d in final.bond && final.bond[d] == early.bond[d])
  {
    if k < |lines| {
      var front := lines[..|lines| - 1];
      assert front[..k] == lines[..k];
      assert ConfigLines(t, front).Ok?;
      FirstDinucWins(t, front, k, d);
    } else {
      assert lines[..k] == lines;
    }
  }

  /** A failing line stops ReadConfig: the lines after it are not read. */
  lemma {:induction false} FailureStops(t: Tables, lines: seq<string>, k: nat)
    requires k <= |lines| && ConfigLines(t, lines[..k]).Fail?
    ensures ConfigLines(t, lines).Fail?
  {
    if k < |lines| {
      var front := lines[..|lines| - 1];
      assert front[..k] == lines[..k];
      FailureStops(t, front, k);
    } else {
      assert lines[..k] == lines;
    }
  }
}
