/**
 * The header of a TopStopWork input: while the next character is '>', the
 * rest of its line is read and appended to the header, '>' included.
 */
module TopStopHeader {
  import opened Text

  /** The '>' lines at the head of an input, each kept with its '>', and the text after them. */
  function SplitHeader(input: string): (r: (string, string))
    ensures |r.0| + |r.1| <= |input|
    decreases |input|
  {
    if |input| > 0 && input[0] == '>' then
      var line := ReadLine(input[1..]);
      var more := SplitHeader(line.1);
      (['>'] + line.0 + more.0, more.1)
    else ([], input)
  }

  /** What follows the header is a suffix of the input that does not start with '>'. */
  lemma {:induction false} SplitHeaderRest(input: string)
    ensures |SplitHeader(input).1| <= |input|
    ensures SplitHeader(input).1 == input[|input| - |SplitHeader(input).1|..]
    ensures |SplitHeader(input).1| > 0 ==> SplitHeader(input).1[0] != '>'
    decreases |input|
  {
    if |input| > 0 && input[0] == '>' {
      var line := ReadLine(input[1..]);
      SplitHeaderRest(line.1);
      SuffixOfRest(input, line.1, SplitHeader(line.1).1);
    }
  }

  /** A suffix of a suffix of the input after its first character is a suffix of the input. */
  lemma SuffixOfRest(a: string, b: string, c: string)
    requires |a| > 0 && |b| <= |a| - 1 && b == a[1..][|a| - 1 - |b|..]
    requires |c| <= |b| && c == b[|b| - |c|..]
    ensures c == a[|a| - |c|..]
  {
    assert b == a[|a| - |b|..];
  }

  /** The header is empty exactly when the input does not start with '>', and starts with '>' otherwise. */
  lemma SplitHeaderStart(input: string)
    ensures |SplitHeader(input).0| > 0 <==> |input| > 0 && input[0] == '>'
    ensures |SplitHeader(input).0| > 0 ==> SplitHeader(input).0[0] == '>'
  {
  }

  /** The header holds no line break: each line is cut at its break. */
  lemma {:induction false} SplitHeaderNoBreak(input: string)
    ensures NoLineBreak(SplitHeader(input).0)
    decreases |input|
  {
    if |input| > 0 && input[0] == '>' {
      var line := ReadLine(input[1..]);
      SplitHeaderNoBreak(line.1);
      var more := SplitHeader(line.1);
      assert SplitHeader(input).0 == ['>'] + line.0 + more.0;
      NoLineBreakConcat(['>'], line.0);
      NoLineBreakConcat(['>'] + line.0, more.0);
    }
  }

  predicate NoLineBreak(s: string) {
    forall k :: 0 <= k < |s| ==> !IsLineBreak(s[k])
  }

  lemma NoLineBreakConcat(a: string, b: string)
    requires NoLineBreak(a) && NoLineBreak(b)
    ensures NoLineBreak(a + b)
  {
    forall k | 0 <= k < |a + b|
      ensures !IsLineBreak((a + b)[k])
    {
      if k >= |a| {
        assert (a + b)[k] == b[k - |a|];
      }
    }
  }
}
