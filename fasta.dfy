/**
 * The FASTA header handling of T24 and T32: while the next character is
 * '>', one line is read with std::getline. T32 concatenates the header
 * lines. T24 looks in each for `range=<id>:<digits>-`, matched as a whole
 * line by `.*\brange=\w+:(\d+)-.*` ignoring case, and takes the digits as
 * absolute_origin.
 */
module Fasta {
  import opened Wrappers
  import opened Chars
  import Numbers

  /** The index of the first newline at or after i, or |s| when there is none. */
  function LineEnd(s: string, i: nat): (e: nat)
    requires i <= |s|
    ensures i <= e <= |s|
    ensures e < |s| ==> s[e] == '\n'
    ensures forall k :: i <= k < e ==> s[k] != '\n'
    decreases |s| - i
  {
    if i == |s| || s[i] == '\n' then i else LineEnd(s, i + 1)
  }

  /** std::getline: the line before the first newline, and what follows; the newline itself is consumed. */
  function GetLine(s: string): (r: (string, string))
    ensures |s| > 0 ==> |r.1| < |s|
  {
    var e := LineEnd(s, 0);
    if e < |s| then (s[..e], s[e + 1..]) else (s, [])
  }

  /** The line holds no newline, and the line, the newline if there was one, and the rest make up s. */
  lemma GetLineSplits(s: string)
    ensures var (line, rest) := GetLine(s);
      && (forall k :: 0 <= k < |line| ==> line[k] != '\n')
      && (s == line + rest || s == line + ['\n'] + rest)
      && (|rest| == 0 || s == line + ['\n'] + rest)
  {
    var e := LineEnd(s, 0);
    if e < |s| {
      assert s == s[..e] + ['\n'] + s[e + 1..];
    }
  }

  /** T32: the header lines concatenated, and the data after them. */
  function Header(s: string): (r: (string, string))
    ensures |r.1| <= |s|
    ensures |r.1| == 0 || r.1[0] != '>'
    decreases |s|
  {
    if |s| > 0 && s[0] == '>' then
      var (line, rest) := GetLine(s);
      var (h, data) := Header(rest);
      (line + h, data)
    else ([], s)
  }

  /** T32's header loop. */
  method SkipHeader(s: string) returns (header: string, data: string)
    ensures (header, data) == Header(s)
  {
    header := [];
    data := s;
    assert Header(s).0 == header + Header(data).0;
    while |data| > 0 && data[0] == '>'
      invariant Header(s).0 == header + Header(data).0
      invariant Header(s).1 == Header(data).1
      decreases |data|
    {
      var (line, rest) := GetLine(data);
      assert Header(data).0 == line + Header(rest).0;
      assert header + Header(data).0 == (header + line) + Header(rest).0;
      header := header + line;
      data := rest;
    }
    assert Header(data) == ([], data);
    assert header + [] == header;
  }

  /** A header that is one line before the data gives that line. */
  lemma OneHeaderLine(line: string, data: string)
    requires |line| > 0 && line[0] == '>' && forall k :: 0 <= k < |line| ==> line[k] != '\n'
    requires |data| == 0 || data[0] != '>'
    ensures Header(line + ['\n'] + data) == (line, data)
  {
    var s := line + ['\n'] + data;
    GetLineOf(line, data);
    assert Header(data) == ([], data);
    assert line + [] == line;
  }

  /** getline on a line and its newline gives the line back. */
  lemma GetLineOf(line: string, rest: string)
    requires forall k :: 0 <= k < |line| ==> line[k] != '\n'
    ensures GetLine(line + ['\n'] + rest) == (line, rest)
  {
    var s := line + ['\n'] + rest;
    LineEndAt(s, 0, |line|);
    assert s[..|line|] == line;
    assert s[|line| + 1..] == rest;
  }

  lemma {:induction false} LineEndAt(s: string, i: nat, e: nat)
    requires i <= e < |s| && s[e] == '\n' && forall k :: i <= k < e ==> s[k] != '\n'
    ensures LineEnd(s, i) == e
    decreases e - i
  {
    if i < e {
      LineEndAt(s, i + 1, e);
    }
  }

  /** The number of word characters from i on. */
  function WordRun(s: string, i: nat): (n: nat)
    requires i <= |s|
    ensures i + n <= |s|
    decreases |s| - i
  {
    if i < |s| && IsWordChar(s[i]) then 1 + WordRun(s, i + 1) else 0
  }

  /** The number of digits from i on. */
  function DigitRun(s: string, i: nat): (n: nat)
    requires i <= |s|
    ensures i + n <= |s|
    decreases |s| - i
  {
    if i < |s| && IsDigit(s[i]) then 1 + DigitRun(s, i + 1) else 0
  }

  lemma {:induction false} DigitRunDigits(s: string, i: nat)
    requires i <= |s|
    ensures forall k :: i <= k < i + DigitRun(s, i) ==> IsDigit(s[k])
    ensures i + DigitRun(s, i) < |s| ==> !IsDigit(s[i + DigitRun(s, i)])
    decreases |s| - i
  {
    if i < |s| && IsDigit(s[i]) {
      DigitRunDigits(s, i + 1);
    }
  }

  /** `range=` at i, ignoring case. */
  predicate RangeKey(s: string, i: nat) {
    && i + 6 <= |s|
    && SameLetterIgnoringCase(s[i], 'r') && SameLetterIgnoringCase(s[i + 1], 'a')
    && SameLetterIgnoringCase(s[i + 2], 'n') && SameLetterIgnoringCase(s[i + 3], 'g')
    && SameLetterIgnoringCase(s[i + 4], 'e') && s[i + 5] == '='
  }

  /** Where the digits of a match at i start: after `range=`, the word and the colon. */
  function DigitsStart(s: string, i: nat): nat
    requires RangeKey(s, i)
  {
    i + 6 + WordRun(s, i + 6) + 1
  }

  /**
   * `\brange=\w+:(\d+)-` matches at i. `\w+` and `\d+` have to take the
   * whole run, as ':' is no word character and '-' no digit.
   */
  predicate RangeAt(s: string, i: nat) {
    && RangeKey(s, i)
    && (i == 0 || !IsWordChar(s[i - 1]))
    && WordRun(s, i + 6) > 0
    && DigitsStart(s, i) <= |s| && s[DigitsStart(s, i) - 1] == ':'
    && DigitRun(s, DigitsStart(s, i)) > 0
    && DigitsStart(s, i) + DigitRun(s, DigitsStart(s, i)) < |s|
    && s[DigitsStart(s, i) + DigitRun(s, DigitsStart(s, i))] == '-'
  }

  /** The captured digits of a match at i. */
  function RangeDigits(s: string, i: nat): (d: string)
    requires RangeAt(s, i)
    ensures |d| > 0 && Numbers.AllDigits(d)
  {
    DigitRunDigits(s, DigitsStart(s, i));
    s[DigitsStart(s, i)..DigitsStart(s, i) + DigitRun(s, DigitsStart(s, i))]
  }

  /** The last match starting before n. */
  function LastRange(s: string, n: nat): (r: Option<nat>)
    ensures r.Some? ==> r.value < n && RangeAt(s, r.value)
    ensures r.Some? ==> forall j :: r.value < j < n ==> !RangeAt(s, j)
    ensures r.None? ==> forall j :: 0 <= j < n ==> !RangeAt(s, j)
  {
    if n == 0 then None
    else if RangeAt(s, n - 1) then Some(n - 1)
    else LastRange(s, n - 1)
  }

  /**
   * The captured group of the whole-line match. The leading `.*` is
   * greedy, so of several matches the last one is taken; `.` matches no
   * carriage return, so a line holding one does not match at all.
   */
  function HeaderOrigin(line: string): (r: Option<string>)
    ensures r.Some? ==> |r.value| > 0 && Numbers.AllDigits(r.value)
    ensures r.None? <==> '\r' in line || forall j :: 0 <= j < |line| ==> !RangeAt(line, j)
    ensures r.Some? ==> exists i :: 0 <= i < |line| && RangeAt(line, i) && r.value == RangeDigits(line, i)
                                  && forall j :: i < j < |line| ==> !RangeAt(line, j)
  {
    if '\r' in line then None
    else
      match LastRange(line, |line|)
      case None => None
      case Some(i) => Some(RangeDigits(line, i))
  }

  /** T24: the data after the header and absolute_origin, or None where std::stoll throws. */
  function SkipHeaderOrigin(s: string, origin: int): (r: Option<(string, int)>)
    ensures r.Some? ==> |r.value.0| <= |s| && r.value.0 == s[|s| - |r.value.0|..]
    ensures r.Some? ==> |r.value.0| == 0 || r.value.0[0] != '>'
    decreases |s|
  {
    if |s| > 0 && s[0] == '>' then
      var (line, rest) := GetLine(s);
      match HeaderOrigin(line)
      case None => SkipHeaderOrigin(rest, origin)
      case Some(d) =>
        match Numbers.StollDigits(d)
        case None => None
        case Some(v) => SkipHeaderOrigin(rest, v)
    else Some((s, origin))
  }

  /** T24's header loop. */
  method SkipHeaderT24(s: string, origin: int) returns (r: Option<(string, int)>)
    ensures r == SkipHeaderOrigin(s, origin)
  {
    var data := s;
    var o := origin;
    while |data| > 0 && data[0] == '>'
      invariant SkipHeaderOrigin(s, origin) == SkipHeaderOrigin(data, o)
      decreases |data|
    {
      var (line, rest) := GetLine(data);
      var found := HeaderOrigin(line);
      if found.Some? {
        var v := Numbers.StollDigits(found.value);
        if v.None? {
          return None;
        }
        o := v.value;
      }
      data := rest;
    }
    return Some((data, o));
  }

  /** Data without a header is left alone and keeps the origin. */
  lemma NoHeader(s: string, origin: int)
    requires |s| == 0 || s[0] != '>'
    ensures SkipHeaderOrigin(s, origin) == Some((s, origin))
  {
  }

  /** Header lines with no match leave the origin as it was. */
  lemma {:induction false} OriginKept(s: string, origin: int)
    requires forall t :: IsHeaderTail(s, t) ==> HeaderOrigin(GetLine(t).0).None?
    ensures SkipHeaderOrigin(s, origin).Some? && SkipHeaderOrigin(s, origin).value.1 == origin
    decreases |s|
  {
    if |s| > 0 && s[0] == '>' {
      assert IsHeaderTail(s, s);
      var rest := GetLine(s).1;
      forall t | IsHeaderTail(rest, t)
        ensures IsHeaderTail(s, t)
      {
      }
      OriginKept(rest, origin);
    }
  }

  /** t is what is left of s before one of its header lines: a suffix of s starting with '>'. */
  predicate IsHeaderTail(s: string, t: string) {
    |t| <= |s| && t == s[|s| - |t|..] && |t| > 0 && t[0] == '>'
  }
}
