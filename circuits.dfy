/**
 * The circuit tracker of the first pass of TopStopWork.ProcessFile: two
 * circuits, each NONE, TOP, BOTTOM or BOTH, each with the position where it
 * started (-1 when there is none), and the recorded [start, end) intervals of
 * each. The source keeps this state in local variables captured by the
 * finalizeCircuit1/2, finalizeCircuits and processBond lambdas; here it is a
 * class whose methods are those lambdas, specified by pure functions on a
 * snapshot of the state.
 */
module Circuits {
  import opened Bonds

  /** One circuit: where it runs now, where it started, and its recorded intervals. */
  datatype Track = Track(at: CircuitPosition, start: int, starts: seq<int>, ends: seq<int>)

  /** Both circuits. */
  datatype CircuitState = CircuitState(one: Track, two: Track)

  const Closed := Track(NONE, -1, [], [])
  const Initial := CircuitState(Closed, Closed)

  /**
   * Recorded intervals: as many starts as ends, each non-empty
   * (0 <= start < end), in order, and apart: each ends before any later one
   * starts, so no two of them touch.
   */
  predicate Intervals(starts: seq<int>, ends: seq<int>) {
    && |starts| == |ends|
    && (forall i :: 0 <= i < |starts| ==> 0 <= starts[i] < ends[i])
    && (forall i, j :: 0 <= i < j < |starts| ==> ends[i] < starts[j])
  }

  /**
   * A circuit is NONE exactly when its start is -1, and an open circuit
   * started after its last recorded interval ended.
   */
  predicate TrackOk(t: Track) {
    && (t.at == NONE <==> t.start == -1)
    && t.start >= -1
    && Intervals(t.starts, t.ends)
    && (t.start >= 0 && |t.ends| > 0 ==> t.ends[|t.ends| - 1] < t.start)
  }

  /** The circuit started before `pos` and its intervals ended before `pos`: the state a bond at `pos` meets. */
  predicate TrackBefore(t: Track, pos: int) {
    t.start < pos && (|t.ends| > 0 ==> t.ends[|t.ends| - 1] < pos)
  }

  /** Nothing in the circuit lies after `pos`: the state a bond at `pos` leaves. */
  predicate TrackNotAfter(t: Track, pos: int) {
    t.start <= pos && (|t.ends| > 0 ==> t.ends[|t.ends| - 1] <= pos)
  }

  /**
   * When both circuits are open they run in parallel, one on each strand: a
   * circuit at BOTH is never open beside another, and no bond opens a second
   * circuit on the strand of the first.
   */
  predicate OppositeStrands(st: CircuitState) {
    st.one.at != NONE && st.two.at != NONE ==> Parallel(st)
  }

  /** What every bond and finalizeCircuits keep: each circuit's intervals apart, open circuits on opposite strands. */
  predicate Inv(st: CircuitState) {
    TrackOk(st.one) && TrackOk(st.two) && OppositeStrands(st)
  }

  /** Bonds come at increasing positions: both circuits started before `pos` and nothing recorded ends after it. */
  predicate Before(st: CircuitState, pos: int) {
    TrackBefore(st.one, pos) && TrackBefore(st.two, pos)
  }

  predicate NotAfter(st: CircuitState, pos: int) {
    TrackNotAfter(st.one, pos) && TrackNotAfter(st.two, pos)
  }

  lemma InitialIsValid(pos: int)
    requires pos >= 0
    ensures Inv(Initial) && Before(Initial, pos)
  {
  }

  lemma NotAfterThenBefore(st: CircuitState, pos: int, later: int)
    requires NotAfter(st, pos) && pos < later
    ensures Before(st, later)
  {
  }

  lemma BeforeThenNotAfter(st: CircuitState, pos: int)
    requires Before(st, pos)
    ensures NotAfter(st, pos)
  {
  }

  /** The recorded intervals of `u` are those of `t`, possibly with one more that ends at `pos`. */
  predicate RecordsAtMostOne(t: Track, u: Track, pos: int) {
    || (u.starts == t.starts && u.ends == t.ends)
    || (u.starts == t.starts + [t.start] && u.ends == t.ends + [pos])
  }

  predicate SameRecords(t: Track, u: Track) {
    u.starts == t.starts && u.ends == t.ends
  }

  /** `u` is `t` closed at `pos`: an open circuit records [start, pos), a closed one records nothing. */
  predicate ClosedAt(t: Track, u: Track, pos: int) {
    && u.at == NONE
    && (t.at != NONE ==> u.starts == t.starts + [t.start] && u.ends == t.ends + [pos])
    && (t.at == NONE ==> SameRecords(t, u))
  }

  /** finalizeCircuitN(pos): an open circuit is recorded as [start, pos) and closed. */
  function Finalize(t: Track, pos: int): (u: Track)
    requires TrackOk(t) && TrackBefore(t, pos)
    ensures TrackOk(u) && TrackNotAfter(u, pos)
    ensures u.at == NONE && u.start == -1
    ensures t.at != NONE ==> u.starts == t.starts + [t.start] && u.ends == t.ends + [pos]
    ensures t.at == NONE ==> u == t
  {
    if t.start >= 0 then
      Track(NONE, -1, t.starts + [t.start], t.ends + [pos])
    else
      t
  }

  /** A closed circuit starts at `pos` in position `p`. */
  function Open(t: Track, p: CircuitPosition, pos: int): (u: Track)
    requires TrackOk(t) && TrackBefore(t, pos) && t.at == NONE && p != NONE && pos >= 0
    ensures TrackOk(u) && TrackNotAfter(u, pos)
    ensures u.at == p && u.start == pos && SameRecords(t, u)
  {
    t.(at := p, start := pos)
  }

  /** An open circuit moves to position `p`, keeping its start. */
  function Move(t: Track, p: CircuitPosition): (u: Track)
    requires TrackOk(t) && t.at != NONE && p != NONE
    ensures TrackOk(u) && u.at == p && u.start == t.start && SameRecords(t, u)
    ensures forall pos :: TrackBefore(t, pos) ==> TrackBefore(u, pos)
  {
    t.(at := p)
  }

  /** A circuit is dropped without recording an interval. */
  function Drop(t: Track): (u: Track)
    requires TrackOk(t)
    ensures TrackOk(u) && u.at == NONE && SameRecords(t, u)
    ensures forall pos :: TrackBefore(t, pos) ==> TrackBefore(u, pos)
  {
    t.(at := NONE, start := -1)
  }

  /** finalizeCircuits(pos): both circuits closed, each open one recorded. */
  function AfterFinalizeBoth(st: CircuitState, pos: int): (r: CircuitState)
    requires Inv(st) && Before(st, pos)
    ensures Inv(r) && NotAfter(r, pos)
    ensures r.one.at == NONE && r.two.at == NONE
    ensures r.one.starts == st.one.starts + (if st.one.at != NONE then [st.one.start] else [])
    ensures r.one.ends == st.one.ends + (if st.one.at != NONE then [pos] else [])
    ensures r.two.starts == st.two.starts + (if st.two.at != NONE then [st.two.start] else [])
    ensures r.two.ends == st.two.ends + (if st.two.at != NONE then [pos] else [])
  {
    CircuitState(Finalize(st.one, pos), Finalize(st.two, pos))
  }

  /** Circuit 1 and circuit 2 run in parallel, one on each strand. */
  predicate Parallel(st: CircuitState) {
    (st.one.at == TOP && st.two.at == BOTTOM) || (st.one.at == BOTTOM && st.two.at == TOP)
  }

  /**
   * Two parallel circuits joined by an orthogonal bond: the one that started
   * earlier (circuit 1 on a tie) becomes BOTH, the other is dropped without
   * recording an interval.
   */
  function Merged(st: CircuitState): (r: CircuitState)
    requires Inv(st) && Parallel(st)
    ensures Inv(r)
    ensures st.one.start <= st.two.start ==>
              r.one.at == BOTH && r.one.start == st.one.start && r.two.at == NONE
    ensures st.one.start > st.two.start ==>
              r.two.at == BOTH && r.two.start == st.two.start && r.one.at == NONE
    ensures SameRecords(st.one, r.one) && SameRecords(st.two, r.two)
    ensures r.one.start <= st.one.start && r.two.start <= st.two.start
  {
    if st.one.start <= st.two.start then
      CircuitState(Move(st.one, BOTH), Drop(st.two))
    else
      CircuitState(Drop(st.one), Move(st.two, BOTH))
  }

  /** A strand position: TOP or BOTTOM. */
  predicate IsStrand(p: CircuitPosition) {
    p == TOP || p == BOTTOM
  }

  function Opposite(p: CircuitPosition): CircuitPosition {
    if p == TOP then BOTTOM else TOP
  }

  /** Some circuit sits at `p` after the bond. */
  predicate OnStrand(st: CircuitState, p: CircuitPosition) {
    st.one.at == p || st.two.at == p
  }

  /**
   * The tail of the one-strand block, reached when circuit 1 is closed or
   * already on this strand: circuit 2 on the other strand bends onto this one
   * across an orthogonal bond, or is closed and circuit 1, if closed, starts
   * here.
   */
  function AfterSecondCrossing(st: CircuitState, here: CircuitPosition, orthogonal: bool, pos: int): (r: CircuitState)
    requires Inv(st) && NotAfter(st, pos) && pos >= 0 && IsStrand(here)
    requires st.two.at == Opposite(here) ==> Before(st, pos)
    requires st.one.at == NONE || st.one.at == here
    requires st.two.at != BOTH
    requires st.one.at == NONE ==> st.two.at != NONE
    requires orthogonal ==> !Parallel(st)
    ensures Inv(r) && NotAfter(r, pos)
    ensures OnStrand(r, here)
    ensures SameRecords(st.one, r.one) && RecordsAtMostOne(st.two, r.two, pos)
  {
    if st.two.at == Opposite(here) then
      if orthogonal then
        st.(two := Move(st.two, here))
      else
        var two := Finalize(st.two, pos);
        if st.one.at == NONE then CircuitState(Open(st.one, here, pos), two)
        else CircuitState(st.one, two)
    else
      st
  }

  /**
   * Circuit 1 on the other strand: it bends onto this one across an
   * orthogonal bond, or is closed, and then circuit 2 starts here if closed
   * or is handled as in AfterSecondCrossing.
   */
  function AfterFirstCrossing(st: CircuitState, here: CircuitPosition, orthogonal: bool, pos: int): (r: CircuitState)
    requires Inv(st) && Before(st, pos) && pos >= 0 && IsStrand(here)
    requires st.one.at == Opposite(here) && st.two.at != BOTH
    requires orthogonal ==> !Parallel(st)
    ensures Inv(r) && NotAfter(r, pos)
    ensures OnStrand(r, here)
    ensures RecordsAtMostOne(st.one, r.one, pos) && RecordsAtMostOne(st.two, r.two, pos)
    ensures st.two.at == NONE ==> SameRecords(st.two, r.two)
  {
    if orthogonal then
      st.(one := Move(st.one, here))
    else
      var one := Finalize(st.one, pos);
      if st.two.at == NONE then CircuitState(one, Open(st.two, here, pos))
      else AfterSecondCrossing(st.(one := one), here, orthogonal, pos)
  }

  /** The coaxial bond on strand `here` only (TOP for "only the top coaxial bond", BOTTOM for the other). */
  function AfterOneCoaxial(st: CircuitState, here: CircuitPosition, orthogonal: bool, pos: int): (r: CircuitState)
    requires Inv(st) && Before(st, pos) && pos >= 0 && IsStrand(here)
    requires orthogonal ==> !Parallel(st)
    ensures Inv(r) && NotAfter(r, pos)
    ensures OnStrand(r, here)
    ensures RecordsAtMostOne(st.one, r.one, pos) && RecordsAtMostOne(st.two, r.two, pos)
    ensures st.one.at == NONE ==> SameRecords(st.one, r.one)
    ensures st.two.at == NONE ==> SameRecords(st.two, r.two)
  {
    if st.one.at == NONE && st.two.at == NONE then
      st.(one := Open(st.one, here, pos))
    else if st.one.at == BOTH then
      st.(one := Move(st.one, here))
    else if st.two.at == BOTH then
      st.(two := Move(st.two, here))
    else if st.one.at == Opposite(here) then
      AfterFirstCrossing(st, here, orthogonal, pos)
    else
      AfterSecondCrossing(st, here, orthogonal, pos)
  }

  /** Both coaxial bonds present. */
  function AfterBothCoaxial(st: CircuitState, orthogonal: bool, pos: int): (r: CircuitState)
    requires Inv(st) && Before(st, pos) && pos >= 0
    requires orthogonal ==> !Parallel(st)
    ensures Inv(r) && NotAfter(r, pos)
    ensures r.one.at != NONE || r.two.at != NONE
    ensures SameRecords(st.one, r.one) && SameRecords(st.two, r.two)
  {
    if st.one.at == BOTH || st.two.at == BOTH then
      st
    else if st.one.at == NONE && st.two.at == NONE then
      if orthogonal then
        st.(one := Open(st.one, BOTH, pos))
      else
        CircuitState(Open(st.one, TOP, pos), Open(st.two, BOTTOM, pos))
    else if st.one.at != NONE then
      if orthogonal then
        st.(one := Move(st.one, BOTH))
      else if st.two.at == NONE then
        st.(two := Open(st.two, Opposite(st.one.at), pos))
      else
        st
    else if orthogonal then
      st.(two := Move(st.two, BOTH))
    else
      st.(one := Open(st.one, Opposite(st.two.at), pos))
  }

  /** The first step of processBond: an orthogonal bond joins two parallel circuits, anything else leaves them. */
  function Joined(st: CircuitState, orthogonal: bool): (m: CircuitState)
    requires Inv(st)
    ensures Inv(m) && SameRecords(st.one, m.one) && SameRecords(st.two, m.two)
    ensures m.one.start <= st.one.start && m.two.start <= st.two.start
    ensures !(orthogonal && Parallel(st)) ==> m == st
    ensures orthogonal && Parallel(st) ==> m == Merged(st)
    ensures orthogonal ==> !Parallel(m)
  {
    if orthogonal && Parallel(st) then Merged(st) else st
  }

  /**
   * The rest of processBond, by which coaxial bonds the bond has. It runs on
   * the state the join block leaves, so an orthogonal bond never meets two
   * parallel circuits here (Joined).
   */
  function AfterCoaxial(m: CircuitState, orthogonal: bool, top: bool, bottom: bool, pos: int): (r: CircuitState)
    requires Inv(m) && Before(m, pos) && pos >= 0
    requires orthogonal ==> !Parallel(m)
    ensures Inv(r) && NotAfter(r, pos)
    ensures !top && !bottom ==> r.one.at == NONE && r.two.at == NONE
    ensures top || bottom ==> r.one.at != NONE || r.two.at != NONE
    ensures top && !bottom ==> OnStrand(r, TOP)
    ensures bottom && !top ==> OnStrand(r, BOTTOM)
    ensures RecordsAtMostOne(m.one, r.one, pos) && RecordsAtMostOne(m.two, r.two, pos)
    ensures !top && !bottom ==> ClosedAt(m.one, r.one, pos) && ClosedAt(m.two, r.two, pos)
    ensures m.one.at == NONE ==> SameRecords(m.one, r.one)
    ensures m.two.at == NONE ==> SameRecords(m.two, r.two)
  {
    if !top && !bottom then
      AfterFinalizeBoth(m, pos)
    else if !bottom then
      AfterOneCoaxial(m, TOP, orthogonal, pos)
    else if !top then
      AfterOneCoaxial(m, BOTTOM, orthogonal, pos)
    else
      AfterBothCoaxial(m, orthogonal, pos)
  }

  /**
   * processBond(bond, pos): the state after the bond at `pos`, given the
   * bond's three tests (HasOrthogonalBond, HasTopCoaxialBond,
   * HasBottomCoaxialBond). An orthogonal bond first joins two parallel
   * circuits; then a bond without coaxial bonds closes both circuits, and a
   * bond with one coaxial bond keeps a circuit on that strand.
   */
  function AfterBond(st: CircuitState, orthogonal: bool, top: bool, bottom: bool, pos: int): (r: CircuitState)
    requires Inv(st) && Before(st, pos) && pos >= 0
    ensures Inv(r) && NotAfter(r, pos)
    ensures !top && !bottom ==> r.one.at == NONE && r.two.at == NONE
    ensures top || bottom ==> r.one.at != NONE || r.two.at != NONE
    ensures top && !bottom ==> OnStrand(r, TOP)
    ensures bottom && !top ==> OnStrand(r, BOTTOM)
    ensures RecordsAtMostOne(st.one, r.one, pos) && RecordsAtMostOne(st.two, r.two, pos)
    // joining two parallel circuits never records an interval for the one that is dropped
    ensures orthogonal && Parallel(st) && st.one.start <= st.two.start ==> SameRecords(st.two, r.two)
    ensures orthogonal && Parallel(st) && st.one.start > st.two.start ==> SameRecords(st.one, r.one)
    // without coaxial bonds every circuit still open after the join is recorded up to pos
    ensures !top && !bottom && !(orthogonal && Parallel(st)) ==>
              ClosedAt(st.one, r.one, pos) && ClosedAt(st.two, r.two, pos)
    ensures !top && !bottom && orthogonal && Parallel(st) && st.one.start <= st.two.start ==>
              ClosedAt(st.one, r.one, pos) && r.two.at == NONE
    ensures !top && !bottom && orthogonal && Parallel(st) && st.one.start > st.two.start ==>
              ClosedAt(st.two, r.two, pos) && r.one.at == NONE
  {
    AfterCoaxial(Joined(st, orthogonal), orthogonal, top, bottom, pos)
  }

  /** The circuit variables of ProcessFile and the lambdas that update them. */
  class Tracker {
    var circuit1: CircuitPosition
    var circuit2: CircuitPosition
    var circuit1Start: int
    var circuit2Start: int
    var start1: seq<int>
    var end1: seq<int>
    var start2: seq<int>
    var end2: seq<int>

    function State(): CircuitState
      reads this
    {
      CircuitState(Track(circuit1, circuit1Start, start1, end1), Track(circuit2, circuit2Start, start2, end2))
    }

    constructor ()
      ensures State() == Initial
    {
      circuit1, circuit2 := NONE, NONE;
      circuit1Start, circuit2Start := -1, -1;
      start1, end1, start2, end2 := [], [], [], [];
    }

    method FinalizeCircuit1(pos: int)
      requires Inv(State()) && TrackBefore(State().one, pos)
      modifies this
      ensures State() == old(State()).(one := Finalize(old(State()).one, pos))
    {
      if circuit1Start >= 0 {
        start1 := start1 + [circuit1Start];
        end1 := end1 + [pos];
        circuit1Start := -1;
        circuit1 := NONE;
      }
    }

    method FinalizeCircuit2(pos: int)
      requires Inv(State()) && TrackBefore(State().two, pos)
      modifies this
      ensures State() == old(State()).(two := Finalize(old(State()).two, pos))
    {
      if circuit2Start >= 0 {
        start2 := start2 + [circuit2Start];
        end2 := end2 + [pos];
        circuit2Start := -1;
        circuit2 := NONE;
      }
    }

    method FinalizeCircuits(pos: int)
      requires Inv(State()) && Before(State(), pos)
      modifies this
      ensures State() == AfterFinalizeBoth(old(State()), pos)
    {
      FinalizeCircuit1(pos);
      FinalizeCircuit2(pos);
    }

    method ProcessBond(bond: Bond, pos: int)
      requires Inv(State()) && Before(State(), pos) && pos >= 0
      modifies this
      ensures State() == AfterBond(old(State()), HasOrthogonalBond(bond),
                                   HasTopCoaxialBond(bond), HasBottomCoaxialBond(bond), pos)
    {
      ProcessBondTests(HasOrthogonalBond(bond), HasTopCoaxialBond(bond), HasBottomCoaxialBond(bond), pos);
    }

    /** processBond, given the results of the bond's three tests. */
    method ProcessBondTests(orthogonal: bool, top: bool, bottom: bool, pos: int)
      requires Inv(State()) && Before(State(), pos) && pos >= 0
      modifies this
      ensures State() == AfterBond(old(State()), orthogonal, top, bottom, pos)
    {
      Join(orthogonal);
      Coaxial(orthogonal, top, bottom, pos);
    }

    /** The first block of processBond: two parallel circuits joined by an orthogonal bond. */
    method Join(orthogonal: bool)
      requires Inv(State())
      modifies this
      ensures State() == Joined(old(State()), orthogonal)
    {
      if orthogonal && Parallel(State()) {
        if circuit1Start <= circuit2Start {
          circuit1 := BOTH;
          circuit2 := NONE;
          circuit2Start := -1;
        } else {
          circuit2 := BOTH;
          circuit1 := NONE;
          circuit1Start := -1;
        }
      }
    }

    /** The rest of processBond, by which coaxial bonds the bond has; it runs after Join. */
    method Coaxial(orthogonal: bool, top: bool, bottom: bool, pos: int)
      requires Inv(State()) && Before(State(), pos) && pos >= 0
      requires orthogonal ==> !Parallel(State())
      modifies this
      ensures State() == AfterCoaxial(old(State()), orthogonal, top, bottom, pos)
    {
      if !top && !bottom {
        FinalizeCircuits(pos);
        return;
      }
      if !bottom {
        OneCoaxial(TOP, orthogonal, pos);
        return;
      }
      if !top {
        OneCoaxial(BOTTOM, orthogonal, pos);
        return;
      }
      BothCoaxial(orthogonal, pos);
    }

    /** The "only the top coaxial bond" (here == TOP) and "only the bottom coaxial bond" blocks of processBond. */
    method OneCoaxial(here: CircuitPosition, orthogonal: bool, pos: int)
      requires Inv(State()) && Before(State(), pos) && pos >= 0 && IsStrand(here)
      requires orthogonal ==> !Parallel(State())
      modifies this
      ensures State() == AfterOneCoaxial(old(State()), here, orthogonal, pos)
    {
      var there := Opposite(here);
      if circuit1 == NONE && circuit2 == NONE {
        circuit1 := here;
        circuit1Start := pos;
        return;
      }
      if circuit1 == BOTH {
        circuit1 := here;
        return;
      }
      if circuit2 == BOTH {
        circuit2 := here;
        return;
      }
      if circuit1 == there {
        FirstCrossing(here, orthogonal, pos);
        return;
      }
      SecondCrossing(here, orthogonal, pos);
    }

    method FirstCrossing(here: CircuitPosition, orthogonal: bool, pos: int)
      requires Inv(State()) && Before(State(), pos) && pos >= 0 && IsStrand(here)
      requires circuit1 == Opposite(here) && circuit2 != BOTH
      requires orthogonal ==> !Parallel(State())
      modifies this
      ensures State() == AfterFirstCrossing(old(State()), here, orthogonal, pos)
    {
      if orthogonal {
        circuit1 := here;
        return;
      }
      FinalizeCircuit1(pos);
      if circuit2 == NONE {
        circuit2 := here;
        circuit2Start := pos;
        return;
      }
      SecondCrossing(here, orthogonal, pos);
    }

    method SecondCrossing(here: CircuitPosition, orthogonal: bool, pos: int)
      requires Inv(State()) && NotAfter(State(), pos) && pos >= 0 && IsStrand(here)
      requires circuit2 == Opposite(here) ==> Before(State(), pos)
      requires circuit1 == NONE || circuit1 == here
      requires circuit2 != BOTH
      requires circuit1 == NONE ==> circuit2 != NONE
      requires orthogonal ==> !Parallel(State())
      modifies this
      ensures State() == AfterSecondCrossing(old(State()), here, orthogonal, pos)
    {
      if circuit2 == Opposite(here) {
        if orthogonal {
          circuit2 := here;
          return;
        }
        FinalizeCircuit2(pos);
        if circuit1 == NONE {
          circuit1 := here;
          circuit1Start := pos;
        }
      }
    }

    /** The "both coaxial bonds" block of processBond. */
    method BothCoaxial(orthogonal: bool, pos: int)
      requires Inv(State()) && Before(State(), pos) && pos >= 0
      requires orthogonal ==> !Parallel(State())
      modifies this
      ensures State() == AfterBothCoaxial(old(State()), orthogonal, pos)
    {
      if circuit1 == BOTH || circuit2 == BOTH {
        return;
      }
      if circuit1 == NONE && circuit2 == NONE {
        if orthogonal {
          circuit1 := BOTH;
          circuit1Start := pos;
          return;
        }
        circuit1 := TOP;
        circuit1Start := pos;
        circuit2 := BOTTOM;
        circuit2Start := pos;
        return;
      }
      if circuit1 == TOP {
        if orthogonal {
          circuit1 := BOTH;
          return;
        }
        if circuit2 == NONE {
          circuit2 := BOTTOM;
          circuit2Start := pos;
        }
        return;
      }
      if circuit1 == BOTTOM {
        if orthogonal {
          circuit1 := BOTH;
          return;
        }
        if circuit2 == NONE {
          circuit2 := TOP;
          circuit2Start := pos;
        }
        return;
      }
      if orthogonal {
        circuit2 := BOTH;
        return;
      }
      if circuit2 == TOP {
        circuit1 := BOTTOM;
        circuit1Start := pos;
        return;
      }
      circuit1 := TOP;
      circuit1Start := pos;
    }
  }
}
