/**
 * create_from_legit_letters of T32: the data after the header is read in
 * chunks of eight bytes, the last read being short, and only its
 * alphabetic bytes are copied, in order, to the front of a buffer as large
 * as the data. actual_size is raised by every chunk and lowered by every
 * byte dropped.
 */
module LegitLetters {
  import opened Chars
  import Fasta

  /** The size of the read buffer. */
  const ChunkSize: nat := 8

  /** The alphabetic characters of s, in order. */
  function Letters(s: string): (r: string)
    ensures |r| <= |s|
    ensures forall i :: 0 <= i < |r| ==> IsAlpha(r[i])
  {
    if |s| == 0 then [] else Letters(s[..|s| - 1]) + (if IsAlpha(s[|s| - 1]) then [s[|s| - 1]] else [])
  }

  lemma {:induction false} LettersAppend(a: string, b: string)
    ensures Letters(a + b) == Letters(a) + Letters(b)
    decreases |b|
  {
    if |b| > 0 {
      var last := b[|b| - 1];
      assert (a + b)[..|a + b| - 1] == a + b[..|b| - 1];
      LettersAppend(a, b[..|b| - 1]);
    } else {
      assert a + b == a;
    }
  }

  /** Filtering twice is filtering once. */
  lemma {:induction false} LettersIdempotent(s: string)
    ensures Letters(Letters(s)) == Letters(s)
  {
    if |s| > 0 {
      LettersIdempotent(s[..|s| - 1]);
      var tail := if IsAlpha(s[|s| - 1]) then [s[|s| - 1]] else [];
      LettersAppend(Letters(s[..|s| - 1]), tail);
    }
  }

  /** Every letter keeps its number of occurrences; nothing else survives. */
  lemma {:induction false} LettersCount(s: string, c: char)
    ensures multiset(Letters(s))[c] == if IsAlpha(c) then multiset(s)[c] else 0
  {
    if |s| > 0 {
      LettersCount(s[..|s| - 1], c);
      assert s == s[..|s| - 1] + [s[|s| - 1]];
    }
  }

  /**
   * The read loop over the data. The buffer has capacity cells; the
   * letters fill its first actualSize cells and the rest is untouched.
   */
  method CreateFromLegitLetters(data: string, capacity: nat) returns (fullbuffer: array<char>, actualSize: nat)
    requires |data| <= capacity
    ensures fresh(fullbuffer) && fullbuffer.Length == capacity
    ensures actualSize == |Letters(data)| && actualSize <= capacity
    ensures fullbuffer[..actualSize] == Letters(data)
  {
    fullbuffer := new char[capacity];
    actualSize := 0;
    var pch := 0;
    var pos := 0;
    var eof := false;
    while !eof
      invariant 0 <= pos <= |data|
      invariant pch == actualSize == |Letters(data[..pos])| <= pos
      invariant fullbuffer[..pch] == Letters(data[..pos])
      invariant eof ==> pos == |data|
      decreases |data| - pos, !eof
    {
      var readThisMany := ChunkSize;
      if |data| - pos < ChunkSize {
        readThisMany := |data| - pos;
        eof := true;
      }
      actualSize, pch := ReadChunk(data, pos, readThisMany, fullbuffer, actualSize, pch);
      pos := pos + readThisMany;
    }
    assert data[..pos] == data;
  }

  /** One chunk: actual_size grows by the chunk and shrinks by each byte that is not a letter. */
  method ReadChunk(data: string, pos: nat, n: nat, fullbuffer: array<char>, size: nat, pch: nat)
    returns (size': nat, pch': nat)
    requires pos + n <= |data| <= fullbuffer.Length
    requires pch == size == |Letters(data[..pos])| <= pos
    requires fullbuffer[..pch] == Letters(data[..pos])
    modifies fullbuffer
    ensures pch' == size' == |Letters(data[..pos + n])| <= pos + n
    ensures fullbuffer[..pch'] == Letters(data[..pos + n])
  {
    size' := size + n;
    pch' := pch;
    var i := 0;
    while i < n
      invariant 0 <= i <= n
      invariant pch' == |Letters(data[..pos + i])| <= pos + i
      invariant size' == pch' + (n - i)
      invariant fullbuffer[..pch'] == Letters(data[..pos + i])
    {
      var ch := data[pos + i];
      LettersStep(data, pos + i);
      if !IsAlpha(ch) {
        size' := size' - 1;
        i := i + 1;
        continue;
      }
      ghost var filled := fullbuffer[..pch'];
      fullbuffer[pch'] := ch;
      assert fullbuffer[..pch'] == filled;
      assert fullbuffer[..pch' + 1] == filled + [ch];
      pch' := pch' + 1;
      i := i + 1;
    }
  }

  /** One more character of the data: a letter is appended, anything else is dropped. */
  lemma LettersStep(data: string, j: nat)
    requires j < |data|
    ensures Letters(data[..j + 1]) == Letters(data[..j]) + (if IsAlpha(data[j]) then [data[j]] else [])
  {
    assert data[..j + 1][..j] == data[..j];
  }

  /**
   * The capacity create_from_legit_letters gives the buffer: the file size
   * less the stream position after the header. When nothing follows the
   * header, the header loop has already met the end of the file, so tellg
   * fails and yields -1, and the capacity is one more than the file size.
   */
  function Capacity(input: string): (r: nat)
    ensures r >= |Fasta.Header(input).1|
    ensures |Fasta.Header(input).1| > 0 ==> r == |Fasta.Header(input).1|
    ensures |Fasta.Header(input).1| == 0 ==> r == |input| + 1
  {
    var data := Fasta.Header(input).1;
    if |data| > 0 then |data| else |input| + 1
  }

  /**
   * T32's process_file: the header lines are concatenated and skipped, and
   * the letters of the rest fill a buffer of Capacity(input) cells.
   */
  method ProcessFile(input: string) returns (header: string, fullbuffer: array<char>, fullbufferSize: nat)
    ensures header == Fasta.Header(input).0
    ensures fresh(fullbuffer)
    ensures |Fasta.Header(input).1| > 0 ==> fullbuffer.Length == |Fasta.Header(input).1|
    ensures |Fasta.Header(input).1| == 0 ==> fullbuffer.Length == |input| + 1
    ensures fullbufferSize == |Letters(Fasta.Header(input).1)| <= |Fasta.Header(input).1|
    ensures fullbuffer[..fullbufferSize] == Letters(Fasta.Header(input).1)
  {
    var data;
    header, data := Fasta.SkipHeader(input);
    fullbuffer, fullbufferSize := CreateFromLegitLetters(data, Capacity(input));
  }
}
