/**
 * Character classification as the C runtime (C locale) and .NET do it for
 * ASCII characters.
 */
module Chars {

  /** C `iscntrl` in the C locale: codes 0-31 and 127. */
  predicate IsCntrl(c: char) {
    c as int < 32 || c as int == 127
  }

  /** .NET `char.IsControl`: the Unicode Cc category, codes 0-31 and 127-159. */
  predicate IsControl(c: char) {
    c as int < 32 || (127 <= c as int <= 159)
  }

  /** C `isalpha` in the C locale. */
  predicate IsAlpha(c: char) {
    ('A' <= c <= 'Z') || ('a' <= c <= 'z')
  }

  predicate IsDigit(c: char) {
    '0' <= c <= '9'
  }

  /** A character of the regular-expression class `\w`. */
  predicate IsWordChar(c: char) {
    IsAlpha(c) || IsDigit(c) || c == '_'
  }

  /** C `toupper` in the C locale. */
  function ToUpper(c: char): (r: char)
    ensures IsAlpha(c) <==> IsAlpha(r)
    ensures 'a' <= c <= 'z' ==> r as int == c as int - 32
    ensures !('a' <= c <= 'z') ==> r == c
    ensures !('a' <= r <= 'z')
  {
    if 'a' <= c <= 'z' then (c as int - 32) as char else c
  }

  /** C `tolower` and .NET `ToLower` restricted to ASCII. */
  function ToLower(c: char): (r: char)
    ensures IsAlpha(c) <==> IsAlpha(r)
    ensures 'A' <= c <= 'Z' ==> r as int == c as int + 32
    ensures !('A' <= c <= 'Z') ==> r == c
    ensures !('A' <= r <= 'Z')
  {
    if 'A' <= c <= 'Z' then (c as int + 32) as char else c
  }

  /** .NET `string.ToUpper` restricted to ASCII: ToUpper on every character. */
  function UpperString(s: string): (r: string)
    ensures |r| == |s|
    ensures forall i :: 0 <= i < |s| ==> r[i] == ToUpper(s[i])
  {
    if |s| == 0 then [] else [ToUpper(s[0])] + UpperString(s[1..])
  }

  /** .NET `string.ToLower` restricted to ASCII: ToLower on every character. */
  function LowerString(s: string): (r: string)
    ensures |r| == |s|
    ensures forall i :: 0 <= i < |s| ==> r[i] == ToLower(s[i])
  {
    if |s| == 0 then [] else [ToLower(s[0])] + LowerString(s[1..])
  }

  /** Case-insensitive character equality, as a regular expression with `icase` compares. */
  predicate SameLetterIgnoringCase(a: char, b: char) {
    ToUpper(a) == ToUpper(b)
  }

  /** Whole-string case-insensitive equality. */
  predicate EqualsIgnoringCase(s: string, t: string) {
    UpperString(s) == UpperString(t)
  }

  /** Upper and lower case of a letter are the same letter ignoring case. */
  lemma CaseFolds(c: char)
    ensures ToUpper(ToLower(c)) == ToUpper(c)
    ensures ToLower(ToUpper(c)) == ToLower(c)
  {
  }
}
