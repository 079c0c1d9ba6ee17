/**
 * The .NET string operations the topstop machine relies on: char.IsWhiteSpace,
 * String.Trim, String.Split on separator characters (empty pieces kept) and
 * StreamReader.ReadLine.
 */
module Text {

  /** char.IsWhiteSpace: the Unicode space separators, line and paragraph separators, and U+0009-U+000D, U+0085. */
  predicate IsWhiteSpace(c: char) {
    var n := c as int;
    || (9 <= n <= 13) || n == 0x20 || n == 0x85 || n == 0xA0 || n == 0x1680
    || (0x2000 <= n <= 0x200A) || n == 0x2028 || n == 0x2029 || n == 0x202F
    || n == 0x205F || n == 0x3000
  }

  /** string.IsNullOrWhiteSpace for a non-null string. */
  predicate IsBlank(s: string) {
    forall i :: 0 <= i < |s| ==> IsWhiteSpace(s[i])
  }

  /** TrimStart(): the suffix left after dropping leading white space. */
  function TrimStart(s: string): (r: string)
    ensures |r| <= |s| && r == s[|s| - |r|..]
    ensures |r| > 0 ==> !IsWhiteSpace(r[0])
    ensures forall k :: 0 <= k < |s| - |r| ==> IsWhiteSpace(s[k])
  {
    if |s| > 0 && IsWhiteSpace(s[0]) then TrimStart(s[1..]) else s
  }

  /** TrimEnd(): the prefix left after dropping trailing white space. */
  function TrimEnd(s: string): (r: string)
    ensures |r| <= |s| && r == s[..|r|]
    ensures |r| > 0 ==> !IsWhiteSpace(r[|r| - 1])
    ensures forall k :: |r| <= k < |s| ==> IsWhiteSpace(s[k])
  {
    if |s| > 0 && IsWhiteSpace(s[|s| - 1]) then TrimEnd(s[..|s| - 1]) else s
  }

  /** The number of white-space characters `s` starts with. */
  function LeadingSpace(s: string): (n: nat)
    ensures n <= |s| && IsBlank(s[..n])
    ensures n < |s| ==> !IsWhiteSpace(s[n])
  {
    |s| - |TrimStart(s)|
  }

  /** Trim(): `s` less its leading and trailing white space. */
  function Trim(s: string): (r: string)
    ensures |r| > 0 ==> !IsWhiteSpace(r[0]) && !IsWhiteSpace(r[|r| - 1])
    ensures LeadingSpace(s) + |r| <= |s|
    ensures r == s[LeadingSpace(s)..LeadingSpace(s) + |r|] && IsBlank(s[LeadingSpace(s) + |r|..])
  {
    var t := TrimStart(s);
    var r := TrimEnd(t);
    TrimAround(s, t, r);
    r
  }

  /**
   * A prefix r of a suffix t of s, with white space before t and after r in t:
   * r is the slice of s that starts where t does, with white space around it.
   */
  lemma TrimAround(s: string, t: string, r: string)
    requires |t| <= |s| && t == s[|s| - |t|..] && forall k :: 0 <= k < |s| - |t| ==> IsWhiteSpace(s[k])
    requires |r| <= |t| && r == t[..|r|] && forall k :: |r| <= k < |t| ==> IsWhiteSpace(t[k])
    ensures var k := |s| - |t|;
              k + |r| <= |s| && r == s[k..k + |r|] && IsBlank(s[k + |r|..])
  {
    var k := |s| - |t|;
    assert s[k + |r|..] == t[|r|..];
  }

  /** Trim keeps a text that neither starts nor ends with white space. */
  lemma TrimKeeps(s: string)
    requires |s| > 0 ==> !IsWhiteSpace(s[0]) && !IsWhiteSpace(s[|s| - 1])
    ensures Trim(s) == s
  {
  }

  /** Trim of a blank text is empty, and of any other text is not. */
  lemma TrimEmpty(s: string)
    ensures |Trim(s)| == 0 <==> IsBlank(s)
  {
    var t := TrimStart(s);
    if |t| > 0 {
      assert !IsWhiteSpace(t[0]);
      assert |TrimEnd(t)| > 0;
    }
  }

  predicate NoneIn(s: string, seps: set<char>) {
    forall j :: 0 <= j < |s| ==> s[j] !in seps
  }

  lemma NoneInConcat(a: string, b: string, seps: set<char>)
    requires NoneIn(a, seps) && NoneIn(b, seps)
    ensures NoneIn(a + b, seps)
  {
    assert forall j :: 0 <= j < |a + b| ==> (a + b)[j] == (if j < |a| then a[j] else b[j - |a|]);
  }

  /** How many characters of `s` are separators. */
  function CountIn(s: string, seps: set<char>): nat {
    if |s| == 0 then 0 else (if s[0] in seps then 1 else 0) + CountIn(s[1..], seps)
  }

  /**
   * String.Split(char[]): the pieces between separators, empty pieces
   * included; one more piece than there are separators.
   */
  function Split(s: string, seps: set<char>): (r: seq<string>)
    ensures |r| == CountIn(s, seps) + 1
    ensures forall i :: 0 <= i < |r| ==> NoneIn(r[i], seps)
  {
    if |s| == 0 then [""]
    else
      var rest := Split(s[1..], seps);
      if s[0] in seps then [""] + rest
      else [[s[0]] + rest[0]] + rest[1..]
  }

  /** The pieces joined back with the separator `c`. */
  function Join(pieces: seq<string>, c: char): string
    requires |pieces| >= 1
  {
    if |pieces| == 1 then pieces[0] else pieces[0] + [c] + Join(pieces[1..], c)
  }

  /** Splitting on one separator and joining with it gives the text back. */
  lemma {:induction false} JoinSplit(s: string, c: char)
    ensures Join(Split(s, {c}), c) == s
  {
    if |s| > 0 {
      var rest := Split(s[1..], {c});
      JoinSplit(s[1..], c);
      if s[0] == c {
        assert Split(s, {c}) == [""] + rest;
        assert ([""] + rest)[1..] == rest;
        assert s == [c] + s[1..];
      } else {
        var r := Split(s, {c});
        assert r == [[s[0]] + rest[0]] + rest[1..];
        if |rest| == 1 {
          assert s == [s[0]] + s[1..];
        } else {
          assert r[1..] == rest[1..];
          assert Join(rest, c) == rest[0] + [c] + Join(rest[1..], c);
          assert s == [s[0]] + s[1..];
        }
      }
    }
  }

  /** A text without separators is one piece. */
  lemma {:induction false} SplitNone(a: string, seps: set<char>)
    requires NoneIn(a, seps)
    ensures Split(a, seps) == [a]
  {
    if |a| > 0 {
      SplitNone(a[1..], seps);
      assert [a[0]] + a[1..] == a;
    }
  }

  /** A separator-free first piece, a separator, then the rest. */
  lemma {:induction false} SplitFirst(a: string, c: char, rest: string, seps: set<char>)
    requires NoneIn(a, seps) && c in seps
    ensures Split(a + [c] + rest, seps) == [a] + Split(rest, seps)
  {
    var s := a + [c] + rest;
    if |a| == 0 {
      assert s[0] == c && s[1..] == rest;
    } else {
      assert s[0] == a[0];
      assert s[1..] == a[1..] + [c] + rest;
      SplitFirst(a[1..], c, rest, seps);
      assert [a[0]] + a[1..] == a;
    }
  }

  predicate IsLineBreak(c: char) {
    c == '\n' || c == '\r'
  }

  /**
   * StreamReader.ReadLine on a non-empty remaining input: the text up to the
   * first '\n', '\r' or "\r\n", and what follows that terminator.
   */
  function ReadLine(s: string): (r: (string, string))
    ensures |r.0| <= |s| && r.0 == s[..|r.0|]
    ensures forall k :: 0 <= k < |r.0| ==> !IsLineBreak(r.0[k])
    ensures |r.1| < |s| || (|s| == 0 && r.1 == [])
    ensures r.1 == s[|s| - |r.1|..]
    ensures |r.0| + |r.1| <= |s|
  {
    if |s| == 0 then ("", "")
    else if s[0] == '\n' then ("", s[1..])
    else if s[0] == '\r' then (if |s| > 1 && s[1] == '\n' then ("", s[2..]) else ("", s[1..]))
    else
      var (line, rest) := ReadLine(s[1..]);
      ([s[0]] + line, rest)
  }

  /** A line written with a "\n" or "\r\n" terminator reads back as that line, leaving what follows. */
  lemma {:induction false} ReadLineOf(line: string, newline: string, rest: string)
    requires forall k :: 0 <= k < |line| ==> !IsLineBreak(line[k])
    requires newline == "\n" || newline == "\r\n"
    ensures ReadLine(line + newline + rest) == (line, rest)
  {
    if |line| == 0 {
      assert line + newline + rest == newline + rest;
    } else {
      assert (line + newline + rest)[1..] == line[1..] + newline + rest;
      ReadLineOf(line[1..], newline, rest);
      assert [line[0]] + line[1..] == line;
    }
  }
}
