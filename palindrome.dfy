/**
 * is_palindrome of T24: a repeat passes when its mirrored arm is long
 * enough and what is left in the middle, the stalk, is short enough. The arm
 * the loop settles on is the index of the first position that does not
 * mirror, or one less than half the length when all of the first half
 * mirrors.
 */
module Palindrome {
  import opened Wrappers

  /** Position i and its mirror position hold the same character. */
  predicate Mirrors(s: string, i: nat)
    requires i < |s|
  {
    s[i] == s[|s| - 1 - i]
  }

  /** The first position from i on, in the first half, that does not mirror. */
  function MismatchFrom(s: string, i: nat): (r: Option<nat>)
    ensures r.Some? ==> i <= r.value < |s| / 2 && !Mirrors(s, r.value)
    ensures r.Some? ==> forall j :: i <= j < r.value ==> Mirrors(s, j)
    ensures r.None? ==> forall j :: i <= j < |s| / 2 ==> Mirrors(s, j)
    decreases |s| - i
  {
    if i >= |s| / 2 then None
    else if !Mirrors(s, i) then Some(i)
    else MismatchFrom(s, i + 1)
  }

  /** The arm length is_palindrome computes. */
  function ArmLength(s: string): (a: nat)
    ensures |s| >= 2 ==> a < |s| / 2
    ensures |s| < 2 ==> a == 0
  {
    match MismatchFrom(s, 0)
    case Some(i) => i
    case None => if |s| / 2 == 0 then 0 else |s| / 2 - 1
  }

  /**
   * What is_palindrome answers for maximum stalk stalkMax and minimum arm
   * armMin: a negative stalkMax counts as 0; a minimum arm of at most 0 and
   * the empty sequence pass.
   */
  function Verdict(s: string, stalkMax: int, armMin: int): (r: bool)
    ensures armMin <= 0 || |s| == 0 ==> r
    ensures armMin > 0 && |s| > 0 ==>
      (!r <==> ArmLength(s) < armMin || |s| - 2 * ArmLength(s) > (if stalkMax < 0 then 0 else stalkMax))
  {
    var stalk := if stalkMax < 0 then 0 else stalkMax;
    if armMin <= 0 || |s| == 0 then true
    else ArmLength(s) >= armMin && |s| - 2 * ArmLength(s) <= stalk
  }

  /** is_palindrome, with the constraints palindrome_center (stalkMax) and palindrome_arm (armMin). */
  method IsPalindrome(s: string, stalkMax: int, armMin: int) returns (r: bool)
    ensures r == Verdict(s, stalkMax, armMin)
  {
    var stalkMaxLength := stalkMax;
    if stalkMaxLength < 0 {
      stalkMaxLength := 0;
    }
    if armMin <= 0 {
      return true;
    }
    if |s| <= 0 {
      return true;
    }
    var armLength := 0;
    var i := 0;
    while i < |s| / 2
      invariant 0 <= i <= |s| / 2
      invariant forall j :: 0 <= j < i ==> Mirrors(s, j)
      invariant armLength == if i == 0 then 0 else i - 1
    {
      var j := |s| - 1 - i;
      armLength := i;
      if s[i] != s[j] {
        break;
      }
      i := i + 1;
    }
    MismatchAt(s, i);
    if armLength < armMin {
      return false;
    }
    var stalkLength := |s| - 2 * armLength;
    if stalkLength > stalkMaxLength {
      return false;
    }
    return true;
  }

  /** Where the loop stops, the arm it leaves is ArmLength. */
  lemma MismatchAt(s: string, i: nat)
    requires i <= |s| / 2
    requires forall j :: 0 <= j < i ==> Mirrors(s, j)
    requires i < |s| / 2 ==> !Mirrors(s, i)
    ensures ArmLength(s) == if i < |s| / 2 then i else if i == 0 then 0 else i - 1
  {
    var m := MismatchFrom(s, 0);
  }

  /** The arm is the first position that does not mirror, or half the length less one. */
  lemma ArmIsFirstMismatch(s: string, i: nat)
    requires i < |s| / 2 && !Mirrors(s, i)
    requires forall j :: 0 <= j < i ==> Mirrors(s, j)
    ensures ArmLength(s) == i
  {
    MismatchAt(s, i);
  }

  /** Of a sequence that mirrors all through, the arm counts one position short. */
  lemma ArmOfPerfectMirror(s: string)
    requires |s| >= 2
    requires forall j :: 0 <= j < |s| / 2 ==> Mirrors(s, j)
    ensures ArmLength(s) == |s| / 2 - 1
  {
    MismatchAt(s, |s| / 2);
  }

  /** The stalk is never shorter than two, so a maximum stalk below two lets nothing through. */
  lemma StalkAtLeastTwo(s: string, stalkMax: int, armMin: int)
    requires |s| >= 1 && armMin > 0 && stalkMax < 2
    ensures |s| >= 2 ==> |s| - 2 * ArmLength(s) >= 2
    ensures !Verdict(s, stalkMax, armMin)
  {
  }

  /** "ATTA" reads the same backwards, yet with a minimum arm of 2 it does not pass. */
  lemma PerfectMirrorRejected()
    ensures ArmLength("ATTA") == 1
    ensures !Verdict("ATTA", 2, 2)
  {
    ArmOfPerfectMirror("ATTA");
  }

  function Reverse(s: string): (r: string)
    ensures |r| == |s|
    ensures forall k :: 0 <= k < |s| ==> r[k] == s[|s| - 1 - k]
  {
    if |s| == 0 then [] else Reverse(s[1..]) + [s[0]]
  }

  /** The verdict is the same for a sequence and its reverse. */
  lemma ReverseVerdict(s: string, stalkMax: int, armMin: int)
    ensures Verdict(Reverse(s), stalkMax, armMin) == Verdict(s, stalkMax, armMin)
  {
    var r := Reverse(s);
    assert forall j :: 0 <= j < |s| ==> (Mirrors(r, j) <==> Mirrors(s, j));
    var m := MismatchFrom(s, 0);
    if m.Some? {
      MismatchAt(r, m.value);
    } else {
      MismatchAt(r, |s| / 2);
    }
  }
}
