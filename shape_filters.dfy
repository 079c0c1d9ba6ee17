/**
 * The optional shape filters of process_file in T24: with
 * please_only_palindromes every length keeps only the palindromes, and
 * with please_only_tandems only the exact tandems. When both are on the
 * second runs on what the first left, so a repeat has to pass both.
 */
module ShapeFilters {
  import opened Wrappers
  import opened Grouping
  import Palindrome
  import Tandem
  import Chars

  /** The shape a filter asks for. */
  datatype Shape =
    | Palindromic(stalkMax: int, armMin: int)
    | Tandemic(minUnit: int, copies: int)

  predicate Passes(shape: Shape, s: string) {
    match shape
    case Palindromic(stalkMax, armMin) => Palindrome.Verdict(s, stalkMax, armMin)
    case Tandemic(minUnit, copies) => Tandem.IsTandem(s, minUnit, copies)
  }

  /** The entries of a level whose content has the shape. */
  function Keep(level: Level, shape: Shape): (r: Level)
    ensures forall p :: p in r <==> p in level && Passes(shape, level[p])
    ensures forall p :: p in r ==> r[p] == level[p]
  {
    map p | p in level && Passes(shape, level[p]) :: level[p]
  }

  /** Every length from m through maxLength filtered; other lengths as they are. */
  function KeepAll(levels: map<nat, Level>, m: nat, maxLength: nat, shape: Shape): map<nat, Level> {
    map k | k in levels :: if m <= k <= maxLength then Keep(levels[k], shape) else levels[k]
  }

  /** Whether one content passes: is_palindrome for palindromes, the tandem match for tandems. */
  method Test(shape: Shape, s: string) returns (pass: bool)
    ensures pass == Passes(shape, s)
  {
    match shape
    case Palindromic(stalkMax, armMin) =>
      pass := Palindrome.IsPalindrome(s, stalkMax, armMin);
    case Tandemic(minUnit, copies) =>
      pass := Tandem.IsTandem(s, minUnit, copies);
  }

  /** The erase loop over one level. */
  method FilterLevel(level: Level, shape: Shape) returns (kept: Level)
    ensures kept == Keep(level, shape)
  {
    kept := level;
    var todo := level.Keys;
    while todo != {}
      invariant todo <= level.Keys
      invariant kept.Keys <= level.Keys
      invariant forall p :: p in kept ==> kept[p] == level[p]
      invariant forall p :: p in level && p !in todo ==> (p in kept <==> Passes(shape, level[p]))
      invariant forall p :: p in todo ==> p in kept
      decreases |todo|
    {
      var p :| p in todo;
      var pass := Test(shape, kept[p]);
      if !pass {
        kept := kept - {p};
      }
      todo := todo - {p};
    }
  }

  /** The loop over the lengths, from seq_length_max down to m. */
  method FilterLevels(levels: map<nat, Level>, m: nat, maxLength: nat, shape: Shape) returns (r: map<nat, Level>)
    requires forall k :: m <= k <= maxLength ==> k in levels
    ensures r == KeepAll(levels, m, maxLength, shape)
  {
    r := levels;
    var len: int := maxLength;
    while len >= m
      invariant len <= maxLength && (len >= m - 1 || len == maxLength)
      invariant r.Keys == levels.Keys
      invariant forall k :: k in levels ==> r[k] == if m <= k && len < k <= maxLength then Keep(levels[k], shape) else levels[k]
      decreases len
    {
      var kept := FilterLevel(r[len], shape);
      r := r[len := kept];
      len := len - 1;
    }
  }

  /**
   * What the two filters leave, or None where the tandem filter stops the
   * program: a minimum unit or a number of copies below 1.
   */
  function Filtered(levels: map<nat, Level>, m: nat, maxLength: nat,
                    onlyPalindromes: bool, stalkMax: int, armMin: int,
                    onlyTandems: bool, minUnit: int, copies: int): Option<map<nat, Level>> {
    var afterPalindromes := if onlyPalindromes then KeepAll(levels, m, maxLength, Palindromic(stalkMax, armMin)) else levels;
    if !onlyTandems then Some(afterPalindromes)
    else if minUnit < 1 || copies < 1 then None
    else Some(KeepAll(afterPalindromes, m, maxLength, Tandemic(minUnit, copies)))
  }

  /** Both filters, palindromes first. The copies == 1 warning does not stop the tandem filter. */
  method ApplyShapeFilters(levels: map<nat, Level>, m: nat, maxLength: nat,
                           onlyPalindromes: bool, stalkMax: int, armMin: int,
                           onlyTandems: bool, minUnit: int, copies: int) returns (r: Option<map<nat, Level>>)
    requires forall k :: m <= k <= maxLength ==> k in levels
    ensures r == Filtered(levels, m, maxLength, onlyPalindromes, stalkMax, armMin, onlyTandems, minUnit, copies)
  {
    var current := levels;
    if onlyPalindromes {
      current := FilterLevels(current, m, maxLength, Palindromic(stalkMax, armMin));
    }
    if onlyTandems {
      if minUnit < 1 {
        return None;
      }
      if copies < 1 {
        return None;
      }
      current := FilterLevels(current, m, maxLength, Tandemic(minUnit, copies));
    }
    return Some(current);
  }

  /**
   * The filters only remove entries, and an entry stays exactly when its
   * content passes every filter that is on: with both on, the intersection.
   */
  lemma FilteredIsIntersection(levels: map<nat, Level>, m: nat, maxLength: nat,
                               onlyPalindromes: bool, stalkMax: int, armMin: int,
                               onlyTandems: bool, minUnit: int, copies: int, k: nat, p: nat)
    requires Filtered(levels, m, maxLength, onlyPalindromes, stalkMax, armMin, onlyTandems, minUnit, copies).Some?
    requires m <= k <= maxLength && k in levels
    ensures var r := Filtered(levels, m, maxLength, onlyPalindromes, stalkMax, armMin, onlyTandems, minUnit, copies).value;
      && k in r
      && (p in r[k] <==> (&& p in levels[k]
                          && (onlyPalindromes ==> Palindrome.Verdict(levels[k][p], stalkMax, armMin))
                          && (onlyTandems ==> Tandem.IsTandem(levels[k][p], minUnit, copies))))
      && (p in r[k] ==> r[k][p] == levels[k][p])
  {
  }

  /** The tandem filter stops the program exactly when its unit or its copies are below 1. */
  lemma TandemFatal(levels: map<nat, Level>, m: nat, maxLength: nat,
                    onlyPalindromes: bool, stalkMax: int, armMin: int, minUnit: int, copies: int)
    ensures Filtered(levels, m, maxLength, onlyPalindromes, stalkMax, armMin, true, minUnit, copies).None?
        <==> minUnit < 1 || copies < 1
  {
  }

  /**
   * With copies == 1 the filter still runs after its warning; it keeps the
   * words of at least minUnit word characters.
   */
  lemma SingleCopyStillFilters(levels: map<nat, Level>, m: nat, maxLength: nat, minUnit: int, k: nat, p: nat)
    requires minUnit >= 1 && m <= k <= maxLength && k in levels
    ensures var r := Filtered(levels, m, maxLength, false, 0, 0, true, minUnit, 1).value;
      p in r[k] <==> (&& p in levels[k] && |levels[k][p]| >= minUnit
                      && forall i :: 0 <= i < |levels[k][p]| ==> Chars.IsWordChar(levels[k][p][i]))
  {
    if p in levels[k] {
      Tandem.OneCopy(levels[k][p], minUnit);
    }
  }
}
