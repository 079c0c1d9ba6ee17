/**
 * The culling step of process_file in T24. Starting with the longest
 * repeats, every start of a length removes, from each shorter length down
 * to min_repeat_length, the starts of the repeats that sit inside it. A
 * length is scanned as left by the longer lengths before it, so a repeat
 * already removed removes nothing; what is left at a length is exactly
 * what no longer repeat of the extension holds.
 */
module Culling {
  import opened Grouping

  /** The repeat at q of length lq lies inside the one at p of length lp. */
  predicate Nest(q: nat, lq: nat, p: nat, lp: nat) {
    p <= q && q + lq <= p + lp
  }

  lemma NestTransitive(q: nat, lq: nat, p: nat, lp: nat, r: nat, lr: nat)
    requires Nest(q, lq, p, lp) && Nest(p, lp, r, lr)
    ensures Nest(q, lq, r, lr)
  {
  }

  /** The entries of level that lie inside none of the repeats of length lp starting in starts. */
  function Outside(level: Level, lq: nat, starts: set<nat>, lp: nat): (r: Level)
    ensures forall q :: q in r <==> q in level && forall p :: p in starts ==> !Nest(q, lq, p, lp)
    ensures forall q :: q in r ==> r[q] == level[q]
  {
    map q | q in level && (forall p :: p in starts ==> !Nest(q, lq, p, lp)) :: level[q]
  }

  lemma OutsideAdd(level: Level, lq: nat, starts: set<nat>, s: nat, lp: nat)
    ensures Outside(Outside(level, lq, starts, lp), lq, {s}, lp) == Outside(level, lq, starts + {s}, lp)
  {
  }

  /** The innermost loop: the starts that let a repeat of cullLen fit inside the one at start. */
  method EraseInside(level: Level, start: nat, len: nat, cullLen: nat) returns (r: Level)
    ensures r == Outside(level, cullLen, {start}, len)
  {
    r := level;
    var q := start;
    while q + cullLen <= start + len
      invariant start <= q && (q == start || q + cullLen <= start + len + 1)
      invariant r.Keys <= level.Keys
      invariant forall x :: x in r ==> r[x] == level[x]
      invariant forall x :: x in level ==> (x in r <==> !(start <= x < q))
      decreases start + len - q
    {
      if q in r {
        r := r - {q};
      }
      q := q + 1;
    }
  }

  /** The cull_length loop: one repeat removes what lies inside it at every shorter length. */
  method CullUnder(culled: map<nat, Level>, m: nat, start: nat, len: nat) returns (r: map<nat, Level>)
    requires forall j :: m <= j < len ==> j in culled
    ensures r.Keys == culled.Keys
    ensures forall j :: j in culled ==> r[j] == if m <= j < len then Outside(culled[j], j, {start}, len) else culled[j]
  {
    r := culled;
    var cullLen: int := len - 1;
    while cullLen >= m
      invariant cullLen < len && (cullLen >= m - 1 || cullLen == len - 1)
      invariant r.Keys == culled.Keys
      invariant forall j :: j in culled ==> r[j] == if m <= j && cullLen < j < len then Outside(culled[j], j, {start}, len) else culled[j]
      decreases cullLen
    {
      var kept := EraseInside(r[cullLen], start, len, cullLen);
      r := r[cullLen := kept];
      cullLen := cullLen - 1;
    }
  }

  /** The loop over a copy of one length: every repeat of it culls the shorter lengths. */
  method CullBy(culled: map<nat, Level>, m: nat, len: nat) returns (r: map<nat, Level>)
    requires forall j :: m <= j <= len ==> j in culled
    requires m <= len
    ensures r.Keys == culled.Keys
    ensures forall j :: j in culled ==> r[j] == if m <= j < len then Outside(culled[j], j, culled[len].Keys, len) else culled[j]
  {
    r := culled;
    var current := culled[len];
    var todo := current.Keys;
    while todo != {}
      invariant todo <= current.Keys
      invariant r.Keys == culled.Keys
      invariant forall j :: j in culled ==> r[j] == if m <= j < len then Outside(culled[j], j, current.Keys - todo, len) else culled[j]
      decreases |todo|
    {
      var s :| s in todo;
      var before := r;
      r := CullUnder(r, m, s, len);
      forall j | j in culled && m <= j < len
        ensures r[j] == Outside(culled[j], j, current.Keys - (todo - {s}), len)
      {
        OutsideAdd(culled[j], j, current.Keys - todo, s, len);
        assert current.Keys - (todo - {s}) == (current.Keys - todo) + {s};
      }
      todo := todo - {s};
    }
  }

  /** Some repeat longer than lo and at most hi long holds the one at q of length lq. */
  ghost predicate NestedIn(levels: map<nat, Level>, lo: nat, hi: nat, q: nat, lq: nat) {
    exists lp: nat, p: nat :: lo < lp <= hi && lp in levels && p in levels[lp] && Nest(q, lq, p, lp)
  }

  /** The entries of length j that no repeat of a length in (lo, hi] holds. */
  ghost function Remaining(levels: map<nat, Level>, j: nat, lo: nat, hi: nat): (r: Level)
    requires j in levels
    ensures forall q :: q in r <==> q in levels[j] && !NestedIn(levels, lo, hi, q, j)
    ensures forall q :: q in r ==> r[q] == levels[j][q]
  {
    map q | q in levels[j] && !NestedIn(levels, lo, hi, q, j) :: levels[j][q]
  }

  /** What culling leaves at length j: the entries no longer repeat up to maxLength holds. */
  ghost function Survivors(levels: map<nat, Level>, j: nat, maxLength: nat): Level
    requires j in levels
  {
    Remaining(levels, j, j, maxLength)
  }

  /** length2map_culled: the lengths m through maxLength replaced by their survivors. */
  ghost function Culled(levels: map<nat, Level>, m: nat, maxLength: nat): (r: map<nat, Level>)
    ensures r.Keys == levels.Keys
  {
    map j | j in levels :: if m <= j <= maxLength then Survivors(levels, j, maxLength) else levels[j]
  }

  /**
   * Culling by the repeats of length len that survived the longer lengths
   * removes the same as culling by all of them: a removed repeat of len
   * lies inside a longer one, which holds everything it holds.
   */
  lemma CullStep(levels: map<nat, Level>, j: nat, len: nat, hi: nat)
    requires j in levels && len in levels && j < len <= hi
    ensures Outside(Remaining(levels, j, len, hi), j, Remaining(levels, len, len, hi).Keys, len)
         == Remaining(levels, j, len - 1, hi)
  {
    var left := Outside(Remaining(levels, j, len, hi), j, Remaining(levels, len, len, hi).Keys, len);
    var right := Remaining(levels, j, len - 1, hi);
    forall q | q in levels[j]
      ensures q in left <==> q in right
    {
      if q in left {
        LeftInRight(levels, j, len, hi, q);
      }
      if q in right {
        RightInLeft(levels, j, len, hi, q);
      }
    }
    assert left == right;
  }

  lemma LeftInRight(levels: map<nat, Level>, j: nat, len: nat, hi: nat, q: nat)
    requires j in levels && len in levels && j < len <= hi
    requires q in Outside(Remaining(levels, j, len, hi), j, Remaining(levels, len, len, hi).Keys, len)
    ensures !NestedIn(levels, len - 1, hi, q, j)
  {
    assert !NestedIn(levels, len, hi, q, j);
    forall p | p in levels[len]
      ensures !Nest(q, j, p, len)
    {
      if p in Remaining(levels, len, len, hi) {
        assert !Nest(q, j, p, len);
      } else if Nest(q, j, p, len) {
        var lr: nat, r: nat :| len < lr <= hi && lr in levels && r in levels[lr] && Nest(p, len, r, lr);
        NestTransitive(q, j, p, len, r, lr);
        assert NestedIn(levels, len, hi, q, j);
      }
    }
  }

  lemma RightInLeft(levels: map<nat, Level>, j: nat, len: nat, hi: nat, q: nat)
    requires j in levels && len in levels && j < len <= hi
    requires q in Remaining(levels, j, len - 1, hi)
    ensures q in Outside(Remaining(levels, j, len, hi), j, Remaining(levels, len, len, hi).Keys, len)
  {
    assert !NestedIn(levels, len - 1, hi, q, j);
    assert !NestedIn(levels, len, hi, q, j);
    forall p | p in Remaining(levels, len, len, hi).Keys
      ensures !Nest(q, j, p, len)
    {
      assert p in levels[len];
    }
  }

  /**
   * The culling loop, from seq_length_max down to min_repeat_length + 1,
   * over a copy of the lengths m through maxLength.
   */
  method Cull(levels: map<nat, Level>, m: nat, maxLength: nat) returns (culled: map<nat, Level>)
    requires forall j :: m <= j <= maxLength ==> j in levels
    ensures culled == Culled(levels, m, maxLength)
  {
    culled := levels;
    var len: int := maxLength;
    StageStart(levels, m, maxLength);
    while len > m
      invariant len <= maxLength && (len >= m || len == maxLength)
      invariant Stage(levels, culled, m, maxLength, len)
      decreases len
    {
      var before := culled;
      culled := CullBy(culled, m, len);
      StageStep(levels, before, culled, m, maxLength, len);
      len := len - 1;
    }
    StageEnd(levels, culled, m, maxLength, len);
  }

  /** Culling has gone through the lengths above len. */
  ghost predicate Stage(levels: map<nat, Level>, culled: map<nat, Level>, m: nat, maxLength: nat, len: int) {
    && culled.Keys == levels.Keys
    && (forall j :: m <= j <= maxLength ==> j in levels && culled[j] == Remaining(levels, j, if j < len then len else j, maxLength))
    && (forall j :: j in levels && !(m <= j <= maxLength) ==> culled[j] == levels[j])
  }

  lemma StageStart(levels: map<nat, Level>, m: nat, maxLength: nat)
    requires forall j :: m <= j <= maxLength ==> j in levels
    ensures Stage(levels, levels, m, maxLength, maxLength)
  {
    forall j | m <= j <= maxLength
      ensures levels[j] == Remaining(levels, j, maxLength, maxLength)
    {
      assert levels[j] == Remaining(levels, j, maxLength, maxLength);
    }
  }

  lemma StageEnd(levels: map<nat, Level>, culled: map<nat, Level>, m: nat, maxLength: nat, len: int)
    requires len <= m && Stage(levels, culled, m, maxLength, len)
    ensures culled == Culled(levels, m, maxLength)
  {
    var target := Culled(levels, m, maxLength);
    forall j | j in levels
      ensures culled[j] == target[j]
    {
      if m <= j <= maxLength {
        assert culled[j] == Remaining(levels, j, j, maxLength);
      }
    }
  }

  lemma StageStep(levels: map<nat, Level>, before: map<nat, Level>, after: map<nat, Level>, m: nat, maxLength: nat, len: nat)
    requires m < len <= maxLength && Stage(levels, before, m, maxLength, len)
    requires after.Keys == before.Keys
    requires forall j :: j in before ==> after[j] == if m <= j < len then Outside(before[j], j, before[len].Keys, len) else before[j]
    ensures Stage(levels, after, m, maxLength, len - 1)
  {
    forall j | m <= j <= maxLength
      ensures after[j] == Remaining(levels, j, if j < len - 1 then len - 1 else j, maxLength)
    {
      if j < len {
        StepBelow(levels, before[j], after[j], before[len], j, len, maxLength);
      } else {
        assert after[j] == before[j];
      }
    }
    forall j | j in levels && !(m <= j <= maxLength)
      ensures after[j] == levels[j]
    {
      assert after[j] == before[j];
    }
  }

  /** One length below len, culled by the survivors of len. */
  lemma StepBelow(levels: map<nat, Level>, old_j: Level, new_j: Level, old_len: Level, j: nat, len: nat, maxLength: nat)
    requires j in levels && len in levels && j < len <= maxLength
    requires old_j == Remaining(levels, j, len, maxLength) && old_len == Remaining(levels, len, len, maxLength)
    requires new_j == Outside(old_j, j, old_len.Keys, len)
    ensures new_j == Remaining(levels, j, len - 1, maxLength)
  {
    CullStep(levels, j, len, maxLength);
  }

  /** The longest length loses nothing. */
  lemma TopUntouched(levels: map<nat, Level>, maxLength: nat)
    requires maxLength in levels
    ensures Survivors(levels, maxLength, maxLength) == levels[maxLength]
  {
  }

  /** No survivor lies inside a longer survivor. */
  lemma SurvivorsApart(levels: map<nat, Level>, maxLength: nat, j: nat, q: nat, lp: nat, p: nat)
    requires j in levels && lp in levels && j < lp <= maxLength
    requires q in Survivors(levels, j, maxLength) && p in Survivors(levels, lp, maxLength)
    ensures !Nest(q, j, p, lp)
  {
    assert !NestedIn(levels, j, maxLength, q, j);
    assert p in levels[lp];
  }

  /**
   * Culling loses no covered window: every repeat either survives or lies
   * inside a longer repeat that survives.
   */
  lemma {:induction false} CoveredBySurvivor(levels: map<nat, Level>, maxLength: nat, j: nat, q: nat)
    requires j in levels && j <= maxLength && q in levels[j]
    ensures q in Survivors(levels, j, maxLength)
         || exists lp: nat, p: nat :: j < lp <= maxLength && lp in levels && p in Survivors(levels, lp, maxLength) && Nest(q, j, p, lp)
    decreases maxLength - j
  {
    if q !in Survivors(levels, j, maxLength) {
      var lp: nat, p: nat :| j < lp <= maxLength && lp in levels && p in levels[lp] && Nest(q, j, p, lp);
      CoveredBySurvivor(levels, maxLength, lp, p);
      if p in Survivors(levels, lp, maxLength) {
        assert j < lp <= maxLength && lp in levels && p in Survivors(levels, lp, maxLength) && Nest(q, j, p, lp);
      } else {
        var lr: nat, r: nat :| lp < lr <= maxLength && lr in levels && r in Survivors(levels, lr, maxLength) && Nest(p, lp, r, lr);
        NestTransitive(q, j, p, lp, r, lr);
        assert j < lr <= maxLength && lr in levels && r in Survivors(levels, lr, maxLength) && Nest(q, j, r, lr);
      }
    }
  }
}
