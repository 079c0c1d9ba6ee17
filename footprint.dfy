/**
 * The output side of process_file in T24 for the footprint process: the
 * footprint bitmap of the culled repeats, the number of covered cells, the
 * islands (runs of covered cells) with their end points, and the masked
 * copy of fullbuffer. The end points and the masked pass are modelled as
 * written: an end point is the last cell of its island shifted by
 * shift_coordinates, the masked pass compares it with the unshifted
 * position and toggles there, so the last cell of an island is copied
 * unmasked.
 */
module Footprint {
  import opened Grouping
  import Culling

  /** Some repeat of the map spans cell i: footprints[i] after marking. */
  ghost predicate Covered(levels: map<nat, Level>, i: int) {
    exists len: nat, p: nat :: len in levels && p in levels[len] && p <= i < p + len
  }

  /** Every repeat ends within the first n cells. */
  predicate InBounds(levels: map<nat, Level>, n: nat) {
    forall len, p :: len in levels && p in levels[len] ==> p + len <= n
  }

  /** Marks the cells of one repeat. */
  method MarkSpan(fp: array<bool>, p: nat, len: nat)
    requires p + len <= fp.Length
    modifies fp
    ensures forall i :: 0 <= i < fp.Length ==> fp[i] == (old(fp[i]) || p <= i < p + len)
  {
    var k := 0;
    while k < len
      invariant 0 <= k <= len
      invariant forall i :: 0 <= i < fp.Length ==> fp[i] == (old(fp[i]) || p <= i < p + k)
    {
      fp[p + k] := true;
      k := k + 1;
    }
  }

  /** Marks the cells of every repeat of one length. */
  method MarkLevel(fp: array<bool>, level: Level, len: nat)
    requires forall p :: p in level ==> p + len <= fp.Length
    modifies fp
    ensures forall i :: 0 <= i < fp.Length ==> fp[i] == (old(fp[i]) || exists p :: p in level && p <= i < p + len)
  {
    var todo := level.Keys;
    while todo != {}
      invariant todo <= level.Keys
      invariant forall i :: 0 <= i < fp.Length ==>
        fp[i] == (old(fp[i]) || exists p :: p in level && p !in todo && p <= i < p + len)
      decreases |todo|
    {
      var p :| p in todo;
      MarkSpan(fp, p, len);
      todo := todo - {p};
    }
  }

  /**
   * The footprint bitmap: capacity cells, as many as fullbuffer can hold,
   * each true exactly when some culled repeat spans it.
   */
  method Footprints(levels: map<nat, Level>, capacity: nat) returns (fp: array<bool>)
    requires InBounds(levels, capacity)
    ensures fresh(fp) && fp.Length == capacity
    ensures forall i :: 0 <= i < capacity ==> (fp[i] <==> Covered(levels, i))
  {
    fp := new bool[capacity](_ => false);
    var todo := levels.Keys;
    while todo != {}
      invariant todo <= levels.Keys
      invariant forall i :: 0 <= i < capacity ==>
        (fp[i] <==> exists len: nat, p: nat :: len in levels && len !in todo && p in levels[len] && p <= i < p + len)
      decreases |todo|
    {
      var len :| len in todo;
      MarkLevel(fp, levels[len], len);
      todo := todo - {len};
    }
  }

  /** The number of true cells among the first n. */
  function CountUpTo(s: seq<bool>, n: nat): (r: nat)
    requires n <= |s|
    ensures r <= n
  {
    if n == 0 then 0 else CountUpTo(s, n - 1) + (if s[n - 1] then 1 else 0)
  }

  /** The true cells among the first n. */
  function TrueCells(s: seq<bool>, n: nat): set<nat>
    requires n <= |s|
  {
    set i: nat | i < n && s[i]
  }

  /** The count is the size of the set of true cells. */
  lemma {:induction false} CountIsCells(s: seq<bool>, n: nat)
    requires n <= |s|
    ensures CountUpTo(s, n) == |TrueCells(s, n)|
  {
    if n > 0 {
      CountIsCells(s, n - 1);
      if s[n - 1] {
        assert TrueCells(s, n) == TrueCells(s, n - 1) + {n - 1};
      } else {
        assert TrueCells(s, n) == TrueCells(s, n - 1);
      }
    }
  }

  /** footprints_count: the loop over every cell of the bitmap. */
  method CountFootprints(fp: array<bool>) returns (count: nat)
    ensures count == CountUpTo(fp[..], fp.Length)
  {
    count := 0;
    var i := 0;
    while i < fp.Length
      invariant 0 <= i <= fp.Length
      invariant count == CountUpTo(fp[..], i)
    {
      if fp[i] {
        count := count + 1;
      }
      i := i + 1;
    }
  }

  /** Cells past the covered part add nothing to the count. */
  lemma {:induction false} CountBeyond(s: seq<bool>, size: nat, n: nat)
    requires size <= n <= |s|
    requires forall i :: size <= i < |s| ==> !s[i]
    ensures CountUpTo(s, n) == CountUpTo(s, size)
  {
    if n > size {
      CountBeyond(s, size, n - 1);
    }
  }

  lemma CoveredBelow(levels: map<nat, Level>, size: nat, i: int)
    requires InBounds(levels, size)
    ensures Covered(levels, i) ==> i < size
  {
    if Covered(levels, i) {
      var len: nat, p: nat :| len in levels && p in levels[len] && p <= i < p + len;
    }
  }

  /**
   * footprints_count counts the covered cells, and no more than the cells
   * of fullbuffer when every repeat fits in it.
   */
  lemma FootprintCount(levels: map<nat, Level>, fp: seq<bool>, size: nat)
    requires size <= |fp| && InBounds(levels, size)
    requires forall i :: 0 <= i < |fp| ==> (fp[i] <==> Covered(levels, i))
    ensures CountUpTo(fp, |fp|) == |set i: nat | i < size && Covered(levels, i)|
    ensures CountUpTo(fp, |fp|) <= size
  {
    forall i | size <= i < |fp|
      ensures !fp[i]
    {
      CoveredBelow(levels, size, i);
    }
    CountBeyond(fp, size, |fp|);
    CountIsCells(fp, size);
    assert TrueCells(fp, size) == set i: nat | i < size && Covered(levels, i);
  }

  /**
   * Culling keeps the footprint: a cell is covered after culling exactly
   * when it was covered before.
   */
  lemma CullKeepsCoverage(levels: map<nat, Level>, m: nat, maxLength: nat, i: int)
    requires forall j :: j in levels ==> m <= j <= maxLength
    ensures Covered(Culling.Culled(levels, m, maxLength), i) <==> Covered(levels, i)
  {
    if Covered(levels, i) {
      CoveredAfterCull(levels, m, maxLength, i);
    }
    if Covered(Culling.Culled(levels, m, maxLength), i) {
      CoveredBeforeCull(levels, m, maxLength, i);
    }
  }

  lemma CoveredAfterCull(levels: map<nat, Level>, m: nat, maxLength: nat, i: int)
    requires forall j :: j in levels ==> m <= j <= maxLength
    requires Covered(levels, i)
    ensures Covered(Culling.Culled(levels, m, maxLength), i)
  {
    var culled := Culling.Culled(levels, m, maxLength);
    var len: nat, p: nat :| len in levels && p in levels[len] && p <= i < p + len;
    Culling.CoveredBySurvivor(levels, maxLength, len, p);
    if p in Culling.Survivors(levels, len, maxLength) {
      SurvivorIsCulled(levels, m, maxLength, len, p);
    } else {
      var lp: nat, r: nat :| len < lp <= maxLength && lp in levels && r in Culling.Survivors(levels, lp, maxLength) && Culling.Nest(p, len, r, lp);
      SurvivorIsCulled(levels, m, maxLength, lp, r);
      assert r <= i < r + lp;
    }
  }

  lemma SurvivorIsCulled(levels: map<nat, Level>, m: nat, maxLength: nat, len: nat, p: nat)
    requires len in levels && m <= len <= maxLength && p in Culling.Survivors(levels, len, maxLength)
    ensures len in Culling.Culled(levels, m, maxLength) && p in Culling.Culled(levels, m, maxLength)[len]
  {
  }

  lemma CoveredBeforeCull(levels: map<nat, Level>, m: nat, maxLength: nat, i: int)
    requires forall j :: j in levels ==> m <= j <= maxLength
    requires Covered(Culling.Culled(levels, m, maxLength), i)
    ensures Covered(levels, i)
  {
    var culled := Culling.Culled(levels, m, maxLength);
    var len: nat, p: nat :| len in culled && p in culled[len] && p <= i < p + len;
    assert culled[len] == Culling.Survivors(levels, len, maxLength);
    assert p in levels[len];
  }

  /** The state of the island loop: in_island, island_count and island_endpoints. */
  datatype IslandState = IslandState(inIsland: bool, count: nat, endpoints: seq<int>)

  /** The island loop after the first n cells. */
  function IslandsUpTo(fp: seq<bool>, n: nat, shift: int): IslandState
    requires n <= |fp|
  {
    if n == 0 then IslandState(false, 0, [])
    else
      var st := IslandsUpTo(fp, n - 1, shift);
      var fx := n - 1;
      if fp[fx] then
        if st.inIsland then st
        else IslandState(true, st.count + 1, st.endpoints + [fx + shift])
      else if st.inIsland then IslandState(false, st.count, st.endpoints + [fx - 1 + shift])
      else st
  }

  /** Cell x begins an island. */
  predicate IslandStart(fp: seq<bool>, x: int) {
    0 <= x < |fp| && fp[x] && (x == 0 || !fp[x - 1])
  }

  /** Cell x is the last of an island that a false cell closes. */
  predicate IslandEnd(fp: seq<bool>, x: int) {
    0 <= x && x + 1 < |fp| && fp[x] && !fp[x + 1]
  }

  /**
   * The loop is inside an island exactly when the last cell is true; there
   * is one end point per start and one per end, so an island reaching the
   * last cell has no end point.
   */
  lemma {:induction false} IslandFlag(fp: seq<bool>, n: nat, shift: int)
    requires n <= |fp|
    ensures var st := IslandsUpTo(fp, n, shift);
      && st.inIsland == (n > 0 && fp[n - 1])
      && |st.endpoints| == 2 * st.count - (if st.inIsland then 1 else 0)
  {
    if n > 0 {
      IslandFlag(fp, n - 1, shift);
    }
  }

  /**
   * The even end points are island starts and the odd ones island ends,
   * shifted by shift, all among the cells seen.
   */
  lemma {:induction false} IslandEndpoints(fp: seq<bool>, n: nat, shift: int)
    requires n <= |fp|
    ensures var eps := IslandsUpTo(fp, n, shift).endpoints;
      forall j :: 0 <= j < |eps| ==>
        && 0 <= eps[j] - shift < n
        && (j % 2 == 0 ==> IslandStart(fp, eps[j] - shift))
        && (j % 2 == 1 ==> IslandEnd(fp, eps[j] - shift))
  {
    if n > 0 {
      IslandEndpoints(fp, n - 1, shift);
      var before := IslandsUpTo(fp, n - 1, shift).endpoints;
      var eps := IslandsUpTo(fp, n, shift).endpoints;
      if eps != before {
        NewEndpoint(fp, n, shift);
        forall j | 0 <= j < |eps|
          ensures 0 <= eps[j] - shift < n
          ensures j % 2 == 0 ==> IslandStart(fp, eps[j] - shift)
          ensures j % 2 == 1 ==> IslandEnd(fp, eps[j] - shift)
        {
          if j < |before| {
            assert eps[j] == eps[..|before|][j] == before[j];
          }
        }
      }
    }
  }

  /** An end point the n-th cell adds is a start at an even index or an end at an odd one. */
  lemma NewEndpoint(fp: seq<bool>, n: nat, shift: int)
    requires 0 < n <= |fp|
    requires IslandsUpTo(fp, n, shift).endpoints != IslandsUpTo(fp, n - 1, shift).endpoints
    ensures var before := IslandsUpTo(fp, n - 1, shift).endpoints;
      var eps := IslandsUpTo(fp, n, shift).endpoints;
      var j := |before|;
      && |eps| == j + 1 && eps[..j] == before
      && 0 <= eps[j] - shift < n
      && (j % 2 == 0 ==> IslandStart(fp, eps[j] - shift))
      && (j % 2 == 1 ==> IslandEnd(fp, eps[j] - shift))
  {
    IslandFlag(fp, n - 1, shift);
  }

  /** Every start and every closed end among the cells seen has its end point. */
  lemma {:induction false} IslandsComplete(fp: seq<bool>, n: nat, shift: int, x: int)
    requires n <= |fp| && 0 <= x
    requires (x < n && IslandStart(fp, x)) || (x + 1 < n && IslandEnd(fp, x))
    ensures x + shift in IslandsUpTo(fp, n, shift).endpoints
  {
    var st := IslandsUpTo(fp, n - 1, shift);
    IslandFlag(fp, n - 1, shift);
    if (x < n - 1 && IslandStart(fp, x)) || (x + 1 < n - 1 && IslandEnd(fp, x)) {
      IslandsComplete(fp, n - 1, shift, x);
    } else if x == n - 1 {
      assert IslandsUpTo(fp, n, shift).endpoints == st.endpoints + [x + shift];
    } else {
      assert IslandsUpTo(fp, n, shift).endpoints == st.endpoints + [x + shift];
    }
  }

  /** The end points come in order. */
  predicate Ordered(eps: seq<int>) {
    forall i, j :: 0 <= i < j < |eps| ==> eps[i] <= eps[j]
  }

  lemma IslandsSorted(fp: seq<bool>, n: nat, shift: int)
    requires n <= |fp|
    ensures Ordered(IslandsUpTo(fp, n, shift).endpoints)
  {
    SortedUpTo(fp, n, shift);
  }

  lemma {:induction false} SortedUpTo(fp: seq<bool>, n: nat, shift: int)
    requires n <= |fp|
    ensures Ordered(IslandsUpTo(fp, n, shift).endpoints)
    ensures forall j :: 0 <= j < |IslandsUpTo(fp, n, shift).endpoints| ==> IslandsUpTo(fp, n, shift).endpoints[j] <= n - 1 + shift
  {
    if n > 0 {
      SortedUpTo(fp, n - 1, shift);
      var before := IslandsUpTo(fp, n - 1, shift).endpoints;
      var eps := IslandsUpTo(fp, n, shift).endpoints;
      if eps != before {
        var v := eps[|eps| - 1];
        assert eps == before + [v] && n - 2 + shift <= v <= n - 1 + shift;
        assert forall j :: 0 <= j < |before| ==> eps[j] == before[j];
      }
    }
  }

  /**
   * The island loop over the first size cells of the bitmap; the end
   * points are kept only when the masked file is wanted.
   */
  method Islands(fp: array<bool>, size: nat, shift: int, createMasked: bool) returns (count: nat, endpoints: seq<int>)
    requires size <= fp.Length
    ensures count == IslandsUpTo(fp[..], size, shift).count
    ensures endpoints == if createMasked then IslandsUpTo(fp[..], size, shift).endpoints else []
  {
    count := 0;
    endpoints := [];
    var inIsland := false;
    ghost var all: seq<int> := [];
    var fx := 0;
    while fx < size
      invariant 0 <= fx <= size
      invariant IslandsUpTo(fp[..], fx, shift) == IslandState(inIsland, count, all)
      invariant endpoints == if createMasked then all else []
    {
      if fp[fx] {
        if !inIsland {
          inIsland := true;
          count := count + 1;
          all := all + [fx + shift];
          if createMasked {
            endpoints := endpoints + [fx + shift];
          }
        }
      } else if inIsland {
        inIsland := false;
        all := all + [fx - 1 + shift];
        if createMasked {
          endpoints := endpoints + [fx - 1 + shift];
        }
      }
      fx := fx + 1;
    }
  }

  /** The masked pass's in_island and island_x after positions 0 through pos - 1. */
  function Toggle(eps: seq<int>, pos: nat): (r: (bool, nat))
    ensures r.1 <= |eps| && r.1 <= pos
  {
    if pos == 0 then (false, 0)
    else
      var (on, x) := Toggle(eps, pos - 1);
      if x < |eps| && eps[x] == pos - 1 then (!on, x + 1) else (on, x)
  }

  /** The masked pass prints the masking character at pos. */
  predicate MaskedAt(eps: seq<int>, pos: nat) {
    Toggle(eps, pos + 1).0
  }

  /** The masked (srm) pass over fullbuffer. */
  method Masked(fb: string, eps: seq<int>, mask: char) returns (out: string)
    ensures |out| == |fb|
    ensures forall pos :: 0 <= pos < |fb| ==> out[pos] == if MaskedAt(eps, pos) then mask else fb[pos]
  {
    out := [];
    var inIsland := false;
    var x := 0;
    var pos := 0;
    while pos < |fb|
      invariant 0 <= pos <= |fb|
      invariant (inIsland, x) == Toggle(eps, pos)
      invariant |out| == pos
      invariant forall i :: 0 <= i < pos ==> out[i] == if MaskedAt(eps, i) then mask else fb[i]
    {
      if x < |eps| {
        if eps[x] == pos {
          inIsland := !inIsland;
          x := x + 1;
        }
      }
      out := out + [if inIsland then mask else fb[pos]];
      pos := pos + 1;
    }
  }

  /**
   * With end points in strictly increasing order the toggle counts them:
   * island_x is the number of end points before pos and the mask is on
   * when it is odd.
   */
  lemma {:induction false} ToggleCounts(eps: seq<int>, pos: nat)
    requires forall i, j :: 0 <= i < j < |eps| ==> eps[i] < eps[j]
    requires forall j :: 0 <= j < |eps| ==> eps[j] >= 0
    ensures var (on, x) := Toggle(eps, pos);
      && (forall j :: 0 <= j < x ==> eps[j] < pos)
      && (forall j :: x <= j < |eps| ==> eps[j] >= pos)
      && on == (x % 2 == 1)
  {
    if pos > 0 {
      ToggleCounts(eps, pos - 1);
    }
  }

  /**
   * So with strictly increasing end points the mask is on at pos exactly
   * when pos is in some [eps[2k], eps[2k + 1]) or at or after an odd last
   * end point: each end point is treated as exclusive.
   */
  lemma MaskBetween(eps: seq<int>, pos: nat)
    requires forall i, j :: 0 <= i < j < |eps| ==> eps[i] < eps[j]
    requires forall j :: 0 <= j < |eps| ==> eps[j] >= 0
    ensures MaskedAt(eps, pos) <==> exists k :: 0 <= 2 * k < |eps| && eps[2 * k] <= pos && (2 * k + 1 == |eps| || pos < eps[2 * k + 1])
  {
    ToggleCounts(eps, pos + 1);
    var t := Toggle(eps, pos + 1);
    var on, x := t.0, t.1;
    assert MaskedAt(eps, pos) == on;
    if on {
      var k := (x - 1) / 2;
      OddHalf(x);
      assert 0 <= 2 * k < |eps| && eps[2 * k] <= pos && (2 * k + 1 == |eps| || pos < eps[2 * k + 1]);
    } else {
      forall k | 0 <= 2 * k < |eps| && eps[2 * k] <= pos
        ensures !(2 * k + 1 == |eps| || pos < eps[2 * k + 1])
      {
        WitnessCount(eps, pos + 1, x, k);
      }
    }
  }

  lemma OddHalf(x: nat)
    requires x % 2 == 1
    ensures 2 * ((x - 1) / 2) + 1 == x
  {
  }

  /** A start at or before pos whose end is after it leaves island_x just past that start. */
  lemma WitnessCount(eps: seq<int>, n: nat, x: nat, k: nat)
    requires x <= |eps|
    requires forall j :: 0 <= j < x ==> eps[j] < n
    requires forall j :: x <= j < |eps| ==> eps[j] >= n
    requires 2 * k < |eps| && eps[2 * k] < n
    ensures (2 * k + 1 == |eps| || n <= eps[2 * k + 1]) ==> x == 2 * k + 1
  {
  }

  /**
   * With strictly increasing end points the toggle masks each start and
   * copies each end: the end point of an island, its last cell, is
   * treated as the first cell after it.
   */
  lemma EndpointToggles(eps: seq<int>, j: nat)
    requires forall i, k :: 0 <= i < k < |eps| ==> eps[i] < eps[k]
    requires forall k :: 0 <= k < |eps| ==> eps[k] >= 0
    requires j < |eps|
    ensures MaskedAt(eps, eps[j]) <==> j % 2 == 0
  {
    ToggleCounts(eps, eps[j] + 1);
    var x := Toggle(eps, eps[j] + 1).1;
    assert eps[j] < eps[j] + 1;
    assert j + 1 < |eps| ==> eps[j + 1] >= eps[j] + 1;
  }

  /** The last end point the toggle has met lies before the position. */
  lemma {:induction false} TogglePassed(eps: seq<int>, pos: nat)
    ensures Toggle(eps, pos).1 > 0 ==> eps[Toggle(eps, pos).1 - 1] < pos
  {
    if pos > 0 {
      TogglePassed(eps, pos - 1);
    }
  }

  /**
   * An end point no greater than the one before it, as a one-cell island
   * gives, is never met: the pass has gone past it when it becomes the
   * next, so the toggle acts as if the end points stopped there.
   */
  lemma {:induction false} ToggleStalls(eps: seq<int>, d: nat, pos: nat)
    requires 0 < d < |eps| && eps[d] <= eps[d - 1]
    ensures Toggle(eps, pos) == Toggle(eps[..d], pos)
  {
    if pos > 0 {
      ToggleStalls(eps, d, pos - 1);
      var x := Toggle(eps, pos - 1).1;
      if x == d {
        TogglePassed(eps, pos - 1);
      }
    }
  }

  /**
   * The mask for end points that increase strictly up to index d, where one
   * fails to increase (or the list ends): the mask is on at pos exactly when
   * pos is in some [eps[2k], eps[2k + 1]) with 2k + 1 < d, or at or after
   * eps[2k] with 2k + 1 == d; nothing from index d on has any effect.
   */
  lemma MaskBeforeStall(eps: seq<int>, d: nat, pos: nat)
    requires d <= |eps|
    requires forall i, j :: 0 <= i < j < d ==> eps[i] < eps[j]
    requires forall j :: 0 <= j < d ==> eps[j] >= 0
    requires d < |eps| ==> 0 < d && eps[d] <= eps[d - 1]
    ensures MaskedAt(eps, pos) <==> exists k :: 0 <= 2 * k < d && eps[2 * k] <= pos && (2 * k + 1 == d || pos < eps[2 * k + 1])
  {
    var pre := eps[..d];
    MaskedPrefix(eps, d, pos);
    PrefixIncreasing(eps, d);
    MaskBetween(pre, pos);
    if MaskedAt(eps, pos) {
      var k :| 0 <= 2 * k < d && pre[2 * k] <= pos && (2 * k + 1 == d || pos < pre[2 * k + 1]);
      assert pre[2 * k] == eps[2 * k];
      assert 2 * k + 1 < d ==> pre[2 * k + 1] == eps[2 * k + 1];
    } else {
      forall k | 0 <= 2 * k < d
        ensures !(eps[2 * k] <= pos && (2 * k + 1 == d || pos < eps[2 * k + 1]))
      {
        assert pre[2 * k] == eps[2 * k];
        assert 2 * k + 1 < d ==> pre[2 * k + 1] == eps[2 * k + 1];
      }
    }
  }

  /** Up to the first end point that does not increase, the mask is that of the end points before it. */
  lemma MaskedPrefix(eps: seq<int>, d: nat, pos: nat)
    requires d <= |eps|
    requires d < |eps| ==> 0 < d && eps[d] <= eps[d - 1]
    ensures MaskedAt(eps, pos) == MaskedAt(eps[..d], pos)
  {
    if d < |eps| {
      ToggleStalls(eps, d, pos + 1);
    } else {
      assert eps[..d] == eps;
    }
  }

  /** The end points before d, increasing and non-negative, as a sequence of their own. */
  lemma PrefixIncreasing(eps: seq<int>, d: nat)
    requires d <= |eps|
    requires forall i, j :: 0 <= i < j < d ==> eps[i] < eps[j]
    requires forall j :: 0 <= j < d ==> eps[j] >= 0
    ensures forall i, j :: 0 <= i < j < |eps[..d]| ==> eps[..d][i] < eps[..d][j]
    ensures forall j :: 0 <= j < |eps[..d]| ==> eps[..d][j] >= 0
  {
  }

  /** An island of two cells: only its first cell is masked, its last is copied. */
  lemma LastCellCopied(fp: seq<bool>)
    requires |fp| == 3 && fp[0] && fp[1] && !fp[2]
    ensures var eps := IslandsUpTo(fp, 3, 0).endpoints;
      && |eps| == 2 && eps[0] == 0 && eps[1] == 1
      && MaskedAt(eps, 0) && !MaskedAt(eps, 1) && !MaskedAt(eps, 2)
  {
    assert IslandsUpTo(fp, 1, 0) == IslandState(true, 1, [0]);
    assert IslandsUpTo(fp, 2, 0) == IslandState(true, 1, [0]);
    var eps := IslandsUpTo(fp, 3, 0).endpoints;
    assert eps == [0, 1];
    assert Toggle(eps, 1) == (true, 1);
    assert Toggle(eps, 2) == (false, 2);
    assert Toggle(eps, 3) == (false, 2);
  }

  /**
   * A one-cell island gives equal start and end points; the toggle only
   * sees the first, so the mask stays on to the end of fullbuffer.
   */
  lemma SingleCellMasksRest(fp: seq<bool>)
    requires |fp| == 4 && !fp[0] && fp[1] && !fp[2] && !fp[3]
    ensures var eps := IslandsUpTo(fp, 4, 0).endpoints;
      && |eps| == 2 && eps[0] == 1 && eps[1] == 1
      && !MaskedAt(eps, 0) && MaskedAt(eps, 1) && MaskedAt(eps, 2) && MaskedAt(eps, 3)
  {
    assert IslandsUpTo(fp, 1, 0) == IslandState(false, 0, []);
    assert IslandsUpTo(fp, 2, 0) == IslandState(true, 1, [1]);
    assert IslandsUpTo(fp, 3, 0) == IslandState(false, 1, [1, 1]);
    var eps := IslandsUpTo(fp, 4, 0).endpoints;
    assert eps == [1, 1];
    assert Toggle(eps, 1) == (false, 0);
    assert Toggle(eps, 2) == (true, 1);
    assert Toggle(eps, 3) == (true, 1);
    assert Toggle(eps, 4) == (true, 1);
  }

  /** An island that reaches the last cell gets its start point only. */
  lemma OpenIslandHasNoEnd(fp: seq<bool>)
    requires |fp| == 3 && !fp[0] && fp[1] && fp[2]
    ensures IslandsUpTo(fp, 3, 0) == IslandState(true, 1, [1])
  {
    assert IslandsUpTo(fp, 1, 0) == IslandState(false, 0, []);
    assert IslandsUpTo(fp, 2, 0) == IslandState(true, 1, [1]);
  }
}
