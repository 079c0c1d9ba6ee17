/**
 * The fourth phase of TopStopWork.ProcessFile: the CHAINS file, the TOPSTOP
 * file with its letters translated as by tr 'ipyxs' 'acgtn'. A leading
 * '>' line is copied as the header (when it is not blank) and every other
 * character without an entry in the translation table, line breaks
 * included, is dropped.
 */
module TopStopChains {
  import opened Wrappers
  import opened Text
  import opened Bonds

  /** The translation table: i to a, p to c, y to g, x to t, s to n. */
  const Table: map<char, char> := map['i' := 'a', 'p' := 'c', 'y' := 'g', 'x' := 't', 's' := 'n']

  /** The size of the block the body is read in. */
  const BufferLength: nat := 8192

  /** The body's characters that have an entry in the table, translated, in order. */
  function Translate(s: string): (r: string)
    ensures |r| <= |s|
  {
    if |s| == 0 then []
    else Translate(s[..|s| - 1]) + (if s[|s| - 1] in Table then [Table[s[|s| - 1]]] else [])
  }

  lemma {:induction false} TranslateConcat(a: string, b: string)
    ensures Translate(a + b) == Translate(a) + Translate(b)
    decreases |b|
  {
    if |b| == 0 {
      assert a + b == a;
    } else {
      assert (a + b)[..|a + b| - 1] == a + b[..|b| - 1];
      TranslateConcat(a, b[..|b| - 1]);
    }
  }

  /** Every TOPSTOP letter has an entry in the table, image the letter the chains format gives it. */
  lemma TableCoversTopStop(ts: TopStop)
    ensures ToChar(ts) in Table
    ensures Table[ToChar(ts)] == match ts case I => 'a' case P => 'c' case Y => 'g' case X => 't' case S => 'n'
  {
  }

  /** The letter a chains character stands for: the inverse of the table. */
  function Untranslate(s: string): (r: string)
    ensures |r| == |s|
  {
    if |s| == 0 then []
    else
      var c := s[|s| - 1];
      Untranslate(s[..|s| - 1]) +
      [if c == 'a' then 'i' else if c == 'c' then 'p' else if c == 'g' then 'y' else if c == 't' then 'x' else 's']
  }

  /** The table loses nothing on TOPSTOP letters: a chains body translates back to its TOPSTOP body. */
  lemma {:induction false} UntranslateTranslate(s: string)
    requires forall k :: 0 <= k < |s| ==> s[k] in Table
    ensures |Translate(s)| == |s|
    ensures Untranslate(Translate(s)) == s
  {
    if |s| > 0 {
      var front := s[..|s| - 1];
      UntranslateTranslate(front);
      assert Translate(s) == Translate(front) + [Table[s[|s| - 1]]];
      assert Translate(s)[..|Translate(s)| - 1] == Translate(front);
    }
  }

  /** The TOPSTOP file: the header line, when it is not blank, then the letters. */
  function TopStopText(header: string, letters: string, newline: string): (r: string)
    ensures |r| >= |letters| && r[|r| - |letters|..] == letters
    ensures IsBlank(header) ==> r == letters
    ensures !IsBlank(header) ==>
              |r| == |header| + |newline| + |letters| && r[..|header|] == header
              && r[|header|..|header| + |newline|] == newline
  {
    (if IsBlank(header) then "" else header + newline) + letters
  }

  /** The header line and the body of a TOPSTOP file, as the chains phase reads them. */
  function HeaderAndBody(topstop: string): (r: (string, string))
    ensures |r.1| <= |topstop| && r.1 == topstop[|topstop| - |r.1|..]
    ensures |r.0| > 0 ==> |topstop| > 0 && topstop[0] == '>'
  {
    if |topstop| > 0 && topstop[0] == '>' then ReadLine(topstop) else ("", topstop)
  }

  /** The CHAINS file made from a TOPSTOP file. */
  function ChainsText(topstop: string, newline: string): (r: string)
    ensures |r| <= |topstop| + |newline|
    ensures (|topstop| == 0 || topstop[0] != '>') ==> r == Translate(topstop)
  {
    var hb := HeaderAndBody(topstop);
    (if IsBlank(hb.0) then "" else hb.0 + newline) + Translate(hb.1)
  }

  /**
   * GenerateChainsFileFromTopstopFile: the header by Peek and ReadLine, then
   * the body in blocks of BufferLength characters until a block comes back
   * short.
   */
  method GenerateChains(topstop: string, newline: string) returns (chains: string)
    ensures chains == ChainsText(topstop, newline)
  {
    var header, body := "", topstop;
    if |topstop| > 0 && topstop[0] == '>' {
      var line := ReadLine(topstop);
      header, body := line.0, line.1;
    }
    assert (header, body) == HeaderAndBody(topstop);
    chains := if IsBlank(header) then "" else header + newline;
    chains := TranslateBody(body, chains);
  }

  /** The block loop: blocks of BufferLength characters until a block comes back short. */
  method TranslateBody(body: string, prefix: string) returns (chains: string)
    ensures chains == prefix + Translate(body)
  {
    chains := prefix;
    var done := 0;
    var more := true;
    while more
      invariant 0 <= done <= |body|
      invariant chains == prefix + Translate(body[..done])
      invariant !more ==> done == |body|
      decreases |body| - done + (if more then 1 else 0)
    {
      var hasRead := if |body| - done < BufferLength then |body| - done else BufferLength;
      chains := TranslateBlock(body, done, hasRead, chains);
      BlockJoins(body, done, hasRead);
      done := done + hasRead;
      more := hasRead == BufferLength;
    }
    assert body[..done] == body;
  }

  lemma BlockJoins(body: string, done: nat, hasRead: nat)
    requires done + hasRead <= |body|
    ensures Translate(body[..done + hasRead]) == Translate(body[..done]) + Translate(body[done..done + hasRead])
  {
    assert body[..done + hasRead] == body[..done] + body[done..done + hasRead];
    TranslateConcat(body[..done], body[done..done + hasRead]);
  }

  /** The loop over one block: each character with an entry in the table is written translated. */
  method TranslateBlock(body: string, from: nat, count: nat, chains: string) returns (chains': string)
    requires from + count <= |body|
    ensures chains' == chains + Translate(body[from..from + count])
  {
    chains' := chains;
    var i := 0;
    while i < count
      invariant 0 <= i <= count
      invariant chains' == chains + Translate(body[from..from + i])
    {
      var ch := body[from + i];
      if ch in Table {
        chains' := chains' + [Table[ch]];
      }
      assert body[from..from + i + 1][..i] == body[from..from + i];
      i := i + 1;
    }
  }

  /** A header the first pass gathers is blank only when it is empty. */
  lemma BlankHeader(header: string)
    requires |header| == 0 || header[0] == '>'
    ensures IsBlank(header) <==> |header| == 0
  {
    if |header| > 0 {
      assert !IsWhiteSpace(header[0]);
    }
  }

  /**
   * The CHAINS file of a TOPSTOP file as the scan phase writes it: the same
   * header line, when it is not blank, and the letters translated one for
   * one. The header is one the first pass gathers (empty or a '>' line) and
   * the letters are TOPSTOP letters.
   */
  lemma ChainsOfTopStop(header: string, letters: string, newline: string)
    requires |header| == 0 || header[0] == '>'
    requires forall k :: 0 <= k < |header| ==> !IsLineBreak(header[k])
    requires forall k :: 0 <= k < |letters| ==> FromChar(letters[k]).Some?
    requires newline == "\n" || newline == "\r\n"
    ensures ChainsText(TopStopText(header, letters, newline), newline) == TopStopText(header, Translate(letters), newline)
    ensures |Translate(letters)| == |letters|
    ensures Untranslate(Translate(letters)) == letters
  {
    LettersInTable(letters);
    UntranslateTranslate(letters);
    if |header| == 0 {
      NoHeader(header, letters, newline);
    } else {
      WithHeader(header, letters, newline);
    }
  }

  lemma LettersInTable(letters: string)
    requires forall k :: 0 <= k < |letters| ==> FromChar(letters[k]).Some?
    ensures forall k :: 0 <= k < |letters| ==> letters[k] in Table
    ensures |letters| > 0 ==> letters[0] != '>'
  {
    forall k | 0 <= k < |letters|
      ensures letters[k] in Table
    {
    }
    if |letters| > 0 {
      assert FromChar(letters[0]).Some?;
    }
  }

  lemma NoHeader(header: string, letters: string, newline: string)
    requires |header| == 0 && (|letters| > 0 ==> letters[0] != '>')
    ensures ChainsText(TopStopText(header, letters, newline), newline) == TopStopText(header, Translate(letters), newline)
  {
    assert header == "";
    NoHeaderText(letters, newline);
  }

  lemma NoHeaderText(letters: string, newline: string)
    requires |letters| > 0 ==> letters[0] != '>'
    ensures ChainsText(TopStopText("", letters, newline), newline) == TopStopText("", Translate(letters), newline)
  {
    assert TopStopText("", letters, newline) == letters;
    assert HeaderAndBody(letters) == ("", letters);
  }

  lemma WithHeader(header: string, letters: string, newline: string)
    requires |header| > 0 && header[0] == '>'
    requires forall k :: 0 <= k < |header| ==> !IsLineBreak(header[k])
    requires newline == "\n" || newline == "\r\n"
    ensures ChainsText(TopStopText(header, letters, newline), newline) == TopStopText(header, Translate(letters), newline)
  {
    BlankHeader(header);
    ReadLineOf(header, newline, letters);
    assert TopStopText(header, letters, newline) == header + newline + letters;
  }
}
