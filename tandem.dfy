/**
 * is_tandem of T24: a whole-string match of `^(\w{u,})\1{c-1,}$` ignoring
 * case, written out as a predicate. A repeat passes when it is one unit of
 * at least u word characters followed by at least c - 1 more copies of it,
 * with nothing left over.
 */
module Tandem {
  import opened Wrappers
  import opened Chars

  /**
   * s is a unit of length d repeated with no remainder: the unit is word
   * characters and every later character is, ignoring case, the one a unit
   * before it, as the backreference compares.
   */
  predicate RepeatsUnit(s: string, d: nat) {
    && 0 < d <= |s| && |s| % d == 0
    && (forall i :: 0 <= i < d ==> IsWordChar(s[i]))
    && (forall i :: d <= i < |s| ==> SameLetterIgnoringCase(s[i], s[i - d]))
  }

  /** The match with a unit of length d: at least u long, and at least c copies. */
  predicate TandemWith(s: string, u: int, c: int, d: nat) {
    u <= d && RepeatsUnit(s, d) && |s| / d >= c
  }

  /** The shortest unit length from d on that makes s a tandem. */
  function UnitFrom(s: string, u: int, c: int, d: nat): (r: Option<nat>)
    ensures r.Some? ==> d <= r.value <= |s| && TandemWith(s, u, c, r.value)
    ensures r.None? ==> forall e :: d <= e <= |s| ==> !TandemWith(s, u, c, e)
    decreases |s| + 1 - d
  {
    if d > |s| then None
    else if TandemWith(s, u, c, d) then Some(d)
    else UnitFrom(s, u, c, d + 1)
  }

  /** is_tandem with tandem_min_unit u and tandem_unit_copies c. */
  predicate IsTandem(s: string, u: int, c: int): (r: bool)
    ensures r ==> 0 < |s| && u <= |s|
  {
    UnitFrom(s, u, c, 0).Some?
  }

  /** Exactly the strings that some admissible unit length makes a tandem. */
  lemma TandemIff(s: string, u: int, c: int)
    ensures IsTandem(s, u, c) <==> exists d: nat :: d <= |s| && TandemWith(s, u, c, d)
  {
    if IsTandem(s, u, c) {
      var d := UnitFrom(s, u, c, 0).value;
      assert d <= |s| && TandemWith(s, u, c, d);
    }
  }

  /** A character that is, ignoring case, a word character is one itself. */
  lemma WordCharCase(x: char, w: char)
    requires IsWordChar(w) && SameLetterIgnoringCase(x, w)
    ensures IsWordChar(x)
  {
  }

  /** Every character of a tandem is a word character. */
  lemma {:induction false} WordAt(s: string, d: nat, i: nat)
    requires RepeatsUnit(s, d) && i < |s|
    ensures IsWordChar(s[i])
    decreases i
  {
    if i >= d {
      WordAt(s, d, i - d);
      WordCharCase(s[i], s[i - d]);
    }
  }

  /**
   * With copies == 1 the backreference may repeat zero times, so the
   * filter keeps exactly the word-character strings of at least u and at
   * least one character.
   */
  lemma OneCopy(s: string, u: int)
    ensures IsTandem(s, u, 1) <==> |s| >= 1 && |s| >= u && forall i :: 0 <= i < |s| ==> IsWordChar(s[i])
  {
    TandemIff(s, u, 1);
    if IsTandem(s, u, 1) {
      var d: nat :| d <= |s| && TandemWith(s, u, 1, d);
      forall i | 0 <= i < |s| ensures IsWordChar(s[i]) {
        WordAt(s, d, i);
      }
    }
    if |s| >= 1 && |s| >= u && forall i :: 0 <= i < |s| ==> IsWordChar(s[i]) {
      assert TandemWith(s, u, 1, |s|);
    }
  }

  /** k copies of a unit. */
  function Copies(unit: string, k: nat): (r: string)
    ensures |r| == k * |unit|
  {
    if k == 0 then [] else unit + Copies(unit, k - 1)
  }

  lemma {:induction false} CopiesPeriodic(unit: string, k: nat, i: nat)
    requires |unit| <= i < k * |unit|
    ensures Copies(unit, k)[i] == Copies(unit, k)[i - |unit|]
    decreases k
  {
    var d := |unit|;
    if i - d >= d {
      CopiesPeriodic(unit, k - 1, i - d);
    }
  }

  lemma DivisionOfMultiple(k: nat, d: nat)
    requires d > 0
    ensures (k * d) % d == 0 && (k * d) / d == k
  {
    var q := (k * d) / d;
    if q < k {
      MulLe(q + 1, k, d);
    } else if q > k {
      MulLe(k + 1, q, d);
    }
  }

  lemma MulLe(a: int, b: int, d: nat)
    requires a <= b
    ensures a * d <= b * d
  {
  }

  /** A unit of at least u word characters repeated at least c times is a tandem. */
  lemma CopiesAreTandem(unit: string, k: nat, u: int, c: int)
    requires |unit| >= 1 && |unit| >= u && k >= 1 && k >= c
    requires forall i :: 0 <= i < |unit| ==> IsWordChar(unit[i])
    ensures IsTandem(Copies(unit, k), u, c)
  {
    var s := Copies(unit, k);
    var d := |unit|;
    DivisionOfMultiple(k, d);
    assert s[..d] == unit;
    forall i | d <= i < |s| ensures SameLetterIgnoringCase(s[i], s[i - d]) {
      CopiesPeriodic(unit, k, i);
    }
    assert TandemWith(s, u, c, d);
    TandemIff(s, u, c);
  }
}
