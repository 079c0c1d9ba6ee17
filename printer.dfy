/**
 * PrintTopstopAndShiftPosition: a writer of TOPSTOP letters that keeps track
 * of the position it has printed up to. The StreamWriter it writes to is
 * modelled by the sequence of characters written so far.
 */
module TopStopPrinter {
  import opened Bonds

  /** The C# `(int)` conversion of a 64-bit value: keep the low 32 bits, as a signed number. */
  function ToInt32(x: int): (r: int)
    ensures -0x8000_0000 <= r < 0x8000_0000
    ensures (r - x) % 0x1_0000_0000 == 0
    ensures -0x8000_0000 <= x < 0x8000_0000 ==> r == x
  {
    (x + 0x8000_0000) % 0x1_0000_0000 - 0x8000_0000
  }

  function Repeat(c: char, n: nat): (r: seq<char>)
    ensures |r| == n
    ensures forall i :: 0 <= i < n ==> r[i] == c
  {
    seq(n, _ => c)
  }

  class Printer {
    var status: TopStop
    var position: int
    /** Everything written to the underlying stream so far. */
    var written: seq<char>

    constructor (position: int)
      ensures this.position == position && written == [] && status == S
    {
      this.position := position;
      this.status := S;
      this.written := [];
    }

    /**
     * Go(status, toWhere): set the status; when toWhere - Position, taken as a
     * 32-bit int, is positive, write that many copies of the status letter and
     * move Position to toWhere. Returns the new Position.
     */
    method GoTo(s: TopStop, toWhere: int) returns (p: int)
      modifies this
      ensures status == s && p == position
      ensures ToInt32(toWhere - old(position)) <= 0 ==>
                position == old(position) && written == old(written)
      ensures ToInt32(toWhere - old(position)) > 0 ==>
                position == toWhere &&
                written == old(written) + Repeat(ToChar(s), ToInt32(toWhere - old(position)))
      ensures 0 < toWhere - old(position) < 0x8000_0000 ==>
                position == toWhere &&
                written == old(written) + Repeat(ToChar(s), toWhere - old(position))
      ensures -0x8000_0000 <= toWhere - old(position) <= 0 ==>
                position == old(position) && written == old(written)
    {
      status := s;
      var howMuch := ToInt32(toWhere - position);
      if howMuch <= 0 {
        p := position;
        return;
      }
      var ch := ToChar(s);
      var i := 0;
      while i < howMuch
        invariant 0 <= i <= howMuch
        invariant written == old(written) + Repeat(ch, i)
        invariant status == s
      {
        written := written + [ch];
        i := i + 1;
      }
      position := toWhere;
      p := position;
    }

    /** Go(status): set the status, write its letter once and advance Position by one. */
    method Go(s: TopStop) returns (p: int)
      modifies this
      ensures status == s
      ensures written == old(written) + [ToChar(s)]
      ensures position == old(position) + 1 && p == position
    {
      status := s;
      written := written + [ToChar(s)];
      position := position + 1;
      p := position;
    }
  }
}
