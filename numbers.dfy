/**
 * Decimal numbers as the C++ runtime reads them: std::stoi for the numeric
 * settings of the T24 configuration file and std::stoll for the origin in a
 * FASTA header.
 */
module Numbers {
  import opened Wrappers
  import opened Chars

  /** C `isspace` in the C locale: space, tab, newline, vertical tab, form feed, carriage return. */
  predicate IsSpace(c: char) {
    c == ' ' || (9 <= c as int <= 13)
  }

  /** The text after its leading white space. */
  function SkipSpaces(s: string): (r: string)
    ensures |r| <= |s| && r == s[|s| - |r|..]
    ensures |r| > 0 ==> !IsSpace(r[0])
    ensures forall k :: 0 <= k < |s| - |r| ==> IsSpace(s[k])
  {
    if |s| > 0 && IsSpace(s[0]) then SkipSpaces(s[1..]) else s
  }

  /** The number of decimal digits the text starts with. */
  function DigitRun(s: string): (n: nat)
    ensures n <= |s|
    ensures forall k :: 0 <= k < n ==> IsDigit(s[k])
    ensures n < |s| ==> !IsDigit(s[n])
  {
    if |s| > 0 && IsDigit(s[0]) then 1 + DigitRun(s[1..]) else 0
  }

  predicate AllDigits(s: string) {
    forall k :: 0 <= k < |s| ==> IsDigit(s[k])
  }

  /** The value of a string of decimal digits, most significant first. */
  function DigitsValue(s: string): nat
    requires AllDigits(s)
  {
    if |s| == 0 then 0 else DigitsValue(s[..|s| - 1]) * 10 + (s[|s| - 1] as int - '0' as int)
  }

  const IntMin: int := -0x8000_0000
  const IntMax: int := 0x7FFF_FFFF
  const LongMax: int := 0x7FFF_FFFF_FFFF_FFFF

  /** The value of the digits a text starts with, if it starts with one. */
  function LeadingNumber(u: string): (r: Option<int>)
    ensures r.Some? <==> |u| > 0 && IsDigit(u[0])
    ensures r.Some? ==> r.value >= 0
  {
    var n := DigitRun(u);
    if n == 0 then None else Some(DigitsValue(u[..n]))
  }

  /** An optional sign, then the digits. */
  function SignedNumber(t: string): (r: Option<int>) {
    if |t| > 0 && t[0] == '-' then
      match LeadingNumber(t[1..])
      case None => None
      case Some(v) => Some(-v)
    else if |t| > 0 && t[0] == '+' then LeadingNumber(t[1..])
    else LeadingNumber(t)
  }

  /**
   * std::stoi: leading white space, an optional sign and at least one digit;
   * whatever follows the digits is ignored. None where it throws:
   * invalid_argument when there are no digits, out_of_range when the value
   * is outside the 32-bit range.
   */
  function Stoi(s: string): (r: Option<int>)
    ensures r.Some? ==> IntMin <= r.value <= IntMax
  {
    match SignedNumber(SkipSpaces(s))
    case None => None
    case Some(v) => if v < IntMin || v > IntMax then None else Some(v)
  }

  /** std::stoll on a string of digits, as the origin of a header is read; None where it throws out_of_range. */
  function StollDigits(s: string): (r: Option<int>)
    requires |s| > 0 && AllDigits(s)
    ensures r.Some? <==> DigitsValue(s) <= LongMax
    ensures r.Some? ==> r.value == DigitsValue(s)
  {
    if DigitsValue(s) > LongMax then None
    else Some(DigitsValue(s))
  }

  /** The decimal digits of a natural number, without leading zeros: the partner of DigitsValue. */
  function Decimal(n: nat): (r: string)
    ensures |r| > 0 && AllDigits(r)
    decreases n
  {
    (if n < 10 then "" else Decimal(n / 10)) + [('0' as int + n % 10) as char]
  }

  /** A number written out in decimal, with a '-' when negative. */
  function Show(n: int): string {
    if n < 0 then ['-'] + Decimal(-n) else Decimal(n)
  }

  lemma {:induction false} DecimalValue(n: nat)
    ensures DigitsValue(Decimal(n)) == n
    decreases n
  {
    var r := Decimal(n);
    assert r[..|r| - 1] == if n < 10 then "" else Decimal(n / 10);
    if n >= 10 {
      DecimalValue(n / 10);
    }
  }

  lemma {:induction false} DigitRunAll(s: string, rest: string)
    requires AllDigits(s)
    requires |rest| == 0 || !IsDigit(rest[0])
    ensures DigitRun(s + rest) == |s|
    decreases |s|
  {
    if |s| > 0 {
      var x := s + rest;
      assert x[0] == s[0];
      assert x[1..] == s[1..] + rest;
      DigitRunAll(s[1..], rest);
      assert DigitRun(x) == 1 + DigitRun(x[1..]);
    } else {
      assert s + rest == rest;
    }
  }

  lemma LeadingNumberOf(d: string, rest: string)
    requires |d| > 0 && AllDigits(d)
    requires |rest| == 0 || !IsDigit(rest[0])
    ensures LeadingNumber(d + rest) == Some(DigitsValue(d))
  {
    DigitRunAll(d, rest);
    assert (d + rest)[..|d|] == d;
  }

  /**
   * std::stoi reads back every 32-bit number written in decimal, whatever
   * non-digit text follows it.
   */
  lemma StoiShow(n: int, rest: string)
    requires IntMin <= n <= IntMax
    requires |rest| == 0 || !IsDigit(rest[0])
    ensures Stoi(Show(n) + rest) == Some(n)
  {
    if n < 0 {
      StoiShowNegative(n, rest);
    } else {
      DecimalValue(n);
      LeadingNumberOf(Decimal(n), rest);
      StoiDigits(Decimal(n) + rest, n);
    }
  }

  lemma StoiShowNegative(n: int, rest: string)
    requires IntMin <= n < 0
    requires |rest| == 0 || !IsDigit(rest[0])
    ensures Stoi(Show(n) + rest) == Some(n)
  {
    var d := Decimal(-n);
    var x := Show(n) + rest;
    assert x[0] == '-' && x[1..] == d + rest by {
      assert Show(n) == ['-'] + d;
      assert x == ['-'] + (d + rest);
    }
    assert LeadingNumber(x[1..]) == Some(-n) by {
      DecimalValue(-n);
      LeadingNumberOf(d, rest);
    }
    assert IsDigit(x[1]) by {
      assert x[1] == (d + rest)[0] == d[0];
    }
    StoiNegative(x, -n);
  }

  lemma StoiDigits(x: string, v: int)
    requires |x| > 0 && IsDigit(x[0])
    requires LeadingNumber(x) == Some(v) && v <= IntMax
    ensures Stoi(x) == Some(v)
  {
    assert SkipSpaces(x) == x;
  }

  lemma StoiNegative(x: string, v: int)
    requires |x| > 1 && x[0] == '-' && IsDigit(x[1])
    requires LeadingNumber(x[1..]) == Some(v) && -v >= IntMin
    ensures Stoi(x) == Some(-v)
  {
    assert SkipSpaces(x) == x;
  }

  /** Leading white space does not change what std::stoi reads. */
  lemma StoiSkipsSpace(c: char, s: string)
    requires IsSpace(c)
    ensures Stoi([c] + s) == Stoi(s)
  {
    assert ([c] + s)[1..] == s;
    assert SkipSpaces([c] + s) == SkipSpaces(s);
  }

  /** Text without a digit is never a number. */
  lemma StoiNeedsDigit(s: string)
    requires forall k :: 0 <= k < |s| ==> !IsDigit(s[k])
    ensures Stoi(s).None?
  {
  }
}
