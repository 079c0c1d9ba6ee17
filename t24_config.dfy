/**
 * The T24 configuration: the Config structure with its default values and
 * predicates, and Parse, which reads `key=value` lines into it.
 */
module T24Config {
  import opened Wrappers
  import opened Chars
  import opened Numbers

  /** How a shape filter is to be applied. */
  datatype FilterStatus = Ignore | Exclude | Enforce

  /** The keys a configuration line may set. */
  datatype Key =
    | FilenamePrefix | MeaningfulLetters | FptMinRepeatLength | CrdMinRepeatLength
    | Shift | Mask | MaskingCharacter | FptCopyNumber | CrdCopyNumber | CullCrd
    | CreateFptFile | CreateCrdFile | Palindromes | PalindromeCenter | PalindromeArm
    | Tandems | MinUnit | UnitCopies | PalindromeStatus | TandemStatus
    | PalindromeArmsTandemsStatus | PalindromeArmTandemMinUnit
    | PalindromeArmTandemUnitCopies | SplitBunchMaxsize | VariableCenters

  /** The label a key is written with in the configuration file. */
  function Label(k: Key): string {
    match k
    case FilenamePrefix => "filename_prefix_to_replace"
    case MeaningfulLetters => "meaningful_letters"
    case FptMinRepeatLength => "fpt_min_repeat_length"
    case CrdMinRepeatLength => "crd_min_repeat_length"
    case Shift => "shift"
    case Mask => "mask"
    case MaskingCharacter => "masking_character"
    case FptCopyNumber => "fpt_copy_number"
    case CrdCopyNumber => "crd_copy_number"
    case CullCrd => "cull_crd"
    case CreateFptFile => "create_fpt_file"
    case CreateCrdFile => "create_crd_file"
    case Palindromes => "palindromes"
    case PalindromeCenter => "palindrome_center"
    case PalindromeArm => "palindrome_arm"
    case Tandems => "tandems"
    case MinUnit => "min_unit"
    case UnitCopies => "unit_copies"
    case PalindromeStatus => "palindrome_status"
    case TandemStatus => "tandem_status"
    case PalindromeArmsTandemsStatus => "palindrome_arms_tandems_status"
    case PalindromeArmTandemMinUnit => "palindrome_arm_tandem_min_unit"
    case PalindromeArmTandemUnitCopies => "palindrome_arm_tandem_unit_copies"
    case SplitBunchMaxsize => "split_bunch_maxsize"
    case VariableCenters => "variable_centers"
  }

  /** The keys in the order Parse lists their labels. */
  const AllKeys: seq<Key> := [
    FilenamePrefix, MeaningfulLetters, FptMinRepeatLength, CrdMinRepeatLength,
    Shift, Mask, MaskingCharacter, FptCopyNumber, CrdCopyNumber, CullCrd,
    CreateFptFile, CreateCrdFile, Palindromes, PalindromeCenter, PalindromeArm,
    Tandems, MinUnit, UnitCopies, PalindromeStatus, TandemStatus,
    PalindromeArmsTandemsStatus, PalindromeArmTandemMinUnit,
    PalindromeArmTandemUnitCopies, SplitBunchMaxsize, VariableCenters]

  /** The first of the keys whose label is s, as std::find searches the list of labels. */
  function FindKey(keys: seq<Key>, s: string): (r: Option<Key>)
    ensures r.Some? ==> r.value in keys && Label(r.value) == s
    ensures r.None? ==> forall k :: k in keys ==> Label(k) != s
  {
    if |keys| == 0 then None
    else if Label(keys[0]) == s then Some(keys[0])
    else FindKey(keys[1..], s)
  }

  /** The key a label names, if it names one. */
  function KeyOf(s: string): (r: Option<Key>)
    ensures r.Some? ==> Label(r.value) == s
    ensures r.None? ==> forall k :: k in AllKeys ==> Label(k) != s
  {
    FindKey(AllKeys, s)
  }

  /**
   * The values of a Config. The numeric fields the structure leaves
   * uninitialised start at 0 here; configMap tells whether a file set them.
   * The copy numbers are unsigned 32-bit.
   */
  datatype Settings = Settings(
    configMap: map<string, string>,
    fptMinRepeatLength: int, crdMinRepeatLength: int,
    fptCopyNumber: nat, crdCopyNumber: nat,
    shiftCoordinates: int,
    createFptFile: bool, createCrdFile: bool, createMaskedFile: bool, cullCrd: bool,
    onlyPalindromes: bool, palindromeArm: int, palindromeCenter: int, onlyVariableCenters: bool,
    onlyTandems: bool, tandemMinUnit: int, tandemUnitCopies: int,
    palindromeStatus: FilterStatus, tandemStatus: FilterStatus, palindromeArmTandemStatus: FilterStatus,
    palindromeArmTandemMinUnit: int, palindromeArmTandemUnitCopies: int,
    splitBunchMaxsize: int,
    letters: set<char>, maskingCharacter: char,
    outputFolderName: string, absoluteOrigin: int)

  /** The default member initialisers of Config. */
  const Defaults: Settings := Settings(
    map[], 0, 0, 0, 0, 0,
    true, true, false, true,
    false, 0, 0, false,
    false, 0, 0,
    Ignore, Ignore, Ignore,
    0, 0,
    -1,
    {}, 'N',
    "Output", 0)

  /** is_whitespace: nothing but spaces and tabs, so the empty string too. */
  predicate IsWhitespace(s: string) {
    forall k :: 0 <= k < |s| ==> s[k] == ' ' || s[k] == '\t'
  }

  /** split_requested: only a positive bunch size asks for a split. */
  predicate SplitRequested(s: Settings) {
    s.splitBunchMaxsize > 0
  }

  /** is_N_letter: a character whose upper case is not a legitimate letter. */
  predicate IsNLetter(letters: set<char>, c: char) {
    ToUpper(c) !in letters
  }

  /** The split and the masking character of the defaults. */
  lemma DefaultsSplitNothing()
    ensures !SplitRequested(Defaults)
    ensures Defaults.maskingCharacter == 'N' && Defaults.shiftCoordinates == 0 && Defaults.absoluteOrigin == 0
  {
  }

  /** Whether a character is an N letter does not depend on its case. */
  lemma NLetterIgnoresCase(letters: set<char>, c: char)
    ensures IsNLetter(letters, ToLower(c)) == IsNLetter(letters, c)
    ensures IsNLetter(letters, ToUpper(c)) == IsNLetter(letters, c)
  {
    CaseFolds(c);
  }

  /** A whole-string match, ignoring case, of an upper-case word. */
  predicate MatchesWord(s: string, word: string) {
    |s| == |word| && forall k :: 0 <= k < |s| ==> ToUpper(s[k]) == word[k]
  }

  /** The boolean options: the value is exactly YES, in any case. */
  predicate IsYes(s: string) {
    MatchesWord(s, "YES")
  }

  /** ReadFilterStatus. */
  function ReadFilterStatus(s: string): (r: FilterStatus)
    ensures r == Exclude <==> MatchesWord(s, "EXCLUDE") || MatchesWord(s, "NO")
    ensures r == Enforce <==> MatchesWord(s, "ENFORCE") || MatchesWord(s, "YES") || MatchesWord(s, "INCLUDE")
  {
    if MatchesWord(s, "IGNORE") then Ignore
    else if MatchesWord(s, "EXCLUDE") || MatchesWord(s, "NO") then
      WordsDiffer(s, "EXCLUDE", "ENFORCE", 1);
      WordsDiffer(s, "EXCLUDE", "INCLUDE", 0);
      Exclude
    else if MatchesWord(s, "ENFORCE") || MatchesWord(s, "YES") || MatchesWord(s, "INCLUDE") then Enforce
    else Ignore
  }

  /** A string matches at most one of two words that differ at some index. */
  lemma WordsDiffer(s: string, w1: string, w2: string, k: nat)
    requires k < |w1| == |w2| && w1[k] != w2[k]
    ensures !(MatchesWord(s, w1) && MatchesWord(s, w2))
  {
  }

  /** The name of a status. */
  function StatusName(st: FilterStatus): string {
    match st
    case Ignore => "IGNORE"
    case Exclude => "EXCLUDE"
    case Enforce => "ENFORCE"
  }

  /** A status reads back from its name written in any case. */
  lemma ReadStatusName(st: FilterStatus, s: string)
    requires UpperString(s) == StatusName(st)
    ensures ReadFilterStatus(s) == st
  {
    assert MatchesWord(s, StatusName(st));
  }

  /** Case does not matter to ReadFilterStatus. */
  lemma ReadStatusIgnoresCase(s: string)
    ensures ReadFilterStatus(LowerString(s)) == ReadFilterStatus(s)
  {
    LowerMatches(s, "IGNORE");
    LowerMatches(s, "EXCLUDE");
    LowerMatches(s, "NO");
    LowerMatches(s, "ENFORCE");
    LowerMatches(s, "YES");
    LowerMatches(s, "INCLUDE");
  }

  /** A word matches the lower case of a string exactly when it matches the string. */
  lemma LowerMatches(s: string, w: string)
    ensures MatchesWord(LowerString(s), w) == MatchesWord(s, w)
  {
    forall k | 0 <= k < |s| ensures ToUpper(LowerString(s)[k]) == ToUpper(s[k]) {
      CaseFolds(s[k]);
    }
  }

  /** An unsigned int assigned the value of a signed one. */
  function ToUnsigned(v: int): (r: nat)
    ensures r < 0x1_0000_0000
    ensures 0 <= v < 0x1_0000_0000 ==> r == v
    ensures -0x1_0000_0000 <= v < 0 ==> r == v + 0x1_0000_0000
  {
    v % 0x1_0000_0000
  }

  /** The numeric keys, read with std::stoi. */
  predicate IsNumeric(k: Key) {
    k in {FptMinRepeatLength, CrdMinRepeatLength, FptCopyNumber, CrdCopyNumber, Shift,
          PalindromeCenter, PalindromeArm, MinUnit, UnitCopies,
          PalindromeArmTandemMinUnit, PalindromeArmTandemUnitCopies, SplitBunchMaxsize}
  }

  /** The boolean keys, true when the value is YES. */
  predicate IsFlag(k: Key) {
    k in {CullCrd, CreateFptFile, CreateCrdFile, Mask, Palindromes, Tandems, VariableCenters}
  }

  /** The filter status keys. */
  predicate IsStatus(k: Key) {
    k in {PalindromeStatus, TandemStatus, PalindromeArmsTandemsStatus}
  }

  /** The field a numeric key sets to n. */
  function SetNumber(s: Settings, k: Key, n: int): (r: Settings)
    requires IsNumeric(k)
    ensures r.configMap == s.configMap && r.letters == s.letters && r.maskingCharacter == s.maskingCharacter
  {
    match k
    case FptMinRepeatLength => s.(fptMinRepeatLength := n)
    case CrdMinRepeatLength => s.(crdMinRepeatLength := n)
    case FptCopyNumber => s.(fptCopyNumber := ToUnsigned(n))
    case CrdCopyNumber => s.(crdCopyNumber := ToUnsigned(n))
    case Shift => s.(shiftCoordinates := n)
    case PalindromeCenter => s.(palindromeCenter := n)
    case PalindromeArm => s.(palindromeArm := n)
    case MinUnit => s.(tandemMinUnit := n)
    case UnitCopies => s.(tandemUnitCopies := n)
    case PalindromeArmTandemMinUnit => s.(palindromeArmTandemMinUnit := n)
    case PalindromeArmTandemUnitCopies => s.(palindromeArmTandemUnitCopies := n)
    case SplitBunchMaxsize => s.(splitBunchMaxsize := n)
  }

  /** The field a boolean key sets to b. */
  function SetFlag(s: Settings, k: Key, b: bool): (r: Settings)
    requires IsFlag(k)
    ensures r.configMap == s.configMap && r.letters == s.letters && r.maskingCharacter == s.maskingCharacter
  {
    match k
    case CullCrd => s.(cullCrd := b)
    case CreateFptFile => s.(createFptFile := b)
    case CreateCrdFile => s.(createCrdFile := b)
    case Mask => s.(createMaskedFile := b)
    case Palindromes => s.(onlyPalindromes := b)
    case Tandems => s.(onlyTandems := b)
    case VariableCenters => s.(onlyVariableCenters := b)
  }

  /** The field a status key sets to st. */
  function SetStatus(s: Settings, k: Key, st: FilterStatus): (r: Settings)
    requires IsStatus(k)
    ensures r.configMap == s.configMap && r.letters == s.letters && r.maskingCharacter == s.maskingCharacter
  {
    match k
    case PalindromeStatus => s.(palindromeStatus := st)
    case TandemStatus => s.(tandemStatus := st)
    case PalindromeArmsTandemsStatus => s.(palindromeArmTandemStatus := st)
  }

  /**
   * The field update for a key met for the first time; None where Parse
   * throws (stoi on a value without a number, at(0) on an empty value).
   */
  function Assign(s: Settings, k: Key, value: string): (r: Option<Settings>)
    ensures r.Some? ==> r.value.configMap == s.configMap && r.value.letters == s.letters
    ensures r.None? <==> (IsNumeric(k) && Stoi(value).None?) || (k == MaskingCharacter && |value| == 0)
    ensures k == MaskingCharacter && r.Some? ==> r.value == s.(maskingCharacter := value[0])
    ensures k == FilenamePrefix || k == MeaningfulLetters ==> r == Some(s)
  {
    if IsNumeric(k) then
      match Stoi(value)
      case None => None
      case Some(n) => Some(SetNumber(s, k, n))
    else if IsFlag(k) then Some(SetFlag(s, k, IsYes(value)))
    else if IsStatus(k) then Some(SetStatus(s, k, ReadFilterStatus(value)))
    else if k == MaskingCharacter then
      if |value| == 0 then None else Some(s.(maskingCharacter := value[0]))
    else Some(s)
  }

  /** The index of the first '=' in a line, if there is one. */
  function FindEquals(line: string): (r: Option<nat>)
    ensures r.None? <==> '=' !in line
    ensures r.Some? ==> r.value < |line| && line[r.value] == '=' && '=' !in line[..r.value]
  {
    if |line| == 0 then None
    else if line[0] == '=' then Some(0)
    else
      match FindEquals(line[1..])
      case None => None
      case Some(i) =>
        assert line[..i + 1] == [line[0]] + line[1..][..i];
        Some(i + 1)
  }

  /**
   * One line of Parse's loop; None where it throws. A comment line (first
   * character '>') and a whitespace line change nothing, a line without '='
   * throws; otherwise the key is the text before the first '=' and the value
   * all that follows it. An unknown key and a key already set change
   * nothing; a new known key is recorded in the map and assigned.
   */
  function ConfigLine(s: Settings, line: string): (r: Option<Settings>)
    ensures r.None? ==> !(|line| > 0 && line[0] == '>') && !IsWhitespace(line)
    ensures r.Some? ==> r.value.letters == s.letters && Kept(s, r.value)
    ensures r.Some? ==> forall key :: key in r.value.configMap && key !in s.configMap ==>
              |key| < |line| && line[..|key|] == key && line[|key|] == '=' && r.value.configMap[key] == line[|key| + 1..]
  {
    if |line| > 0 && line[0] == '>' then Some(s)
    else if IsWhitespace(line) then Some(s)
    else
      match FindEquals(line)
      case None => None
      case Some(pos) => KeyedLine(s, line[..pos], line[pos + 1..])
  }

  /** Every key already set keeps its value. */
  predicate Kept(s: Settings, u: Settings) {
    forall key :: key in s.configMap ==> key in u.configMap && u.configMap[key] == s.configMap[key]
  }

  /** A key and its value: only a known key that is not set yet is recorded and assigned. */
  function KeyedLine(s: Settings, key: string, value: string): (r: Option<Settings>)
    ensures r.Some? ==> r.value.letters == s.letters && Kept(s, r.value)
    ensures r.Some? ==> forall k :: k in r.value.configMap && k !in s.configMap ==> k == key && r.value.configMap[k] == value
  {
    match KeyOf(key)
    case None => Some(s)
    case Some(k) =>
      if key in s.configMap then Some(s)
      else Assign(s.(configMap := s.configMap[key := value]), k, value)
  }

  /** The lines in order, stopping at the first that throws. */
  function ConfigLines(s: Settings, lines: seq<string>): (r: Option<Settings>)
    ensures r.None? ==> |lines| > 0
    ensures r.Some? ==> r.value.letters == s.letters && Kept(s, r.value)
    decreases |lines|
  {
    if |lines| == 0 then Some(s)
    else
      match ConfigLines(s, lines[..|lines| - 1])
      case None => None
      case Some(u) => ConfigLine(u, lines[|lines| - 1])
  }

  /** The upper case of every character of a value. */
  function LettersOf(value: string): (r: set<char>)
    decreases |value|
  {
    if |value| == 0 then {} else LettersOf(value[..|value| - 1]) + {ToUpper(value[|value| - 1])}
  }

  /** The letters of a value are the upper cases of its characters, and nothing else. */
  lemma {:induction false} LettersOfValue(value: string, c: char)
    ensures c in LettersOf(value) <==> exists k :: 0 <= k < |value| && ToUpper(value[k]) == c
    decreases |value|
  {
    if |value| > 0 {
      var front := value[..|value| - 1];
      LettersOfValue(front, c);
      if c in LettersOf(front) {
        var k :| 0 <= k < |front| && ToUpper(front[k]) == c;
        assert value[k] == front[k];
      }
      if exists k :: 0 <= k < |value| && ToUpper(value[k]) == c {
        var k :| 0 <= k < |value| && ToUpper(value[k]) == c;
        if k < |front| {
          assert front[k] == value[k];
        }
      }
    }
  }

  /** After the loop: letters gains the upper case of the meaningful_letters value, "" when it is unset. */
  function WithLetters(s: Settings): Settings {
    var name := Label(MeaningfulLetters);
    if name in s.configMap then s.(letters := s.letters + LettersOf(s.configMap[name]))
    else s.(configMap := s.configMap[name := ""])
  }

  /** A comment or whitespace-only line changes nothing. */
  lemma SkippedLine(s: Settings, line: string)
    requires (|line| > 0 && line[0] == '>') || IsWhitespace(line)
    ensures ConfigLine(s, line) == Some(s)
  {
  }

  /** Any other line without '=' throws. */
  lemma LineWithoutEquals(s: Settings, line: string)
    requires |line| > 0 && line[0] != '>' && !IsWhitespace(line) && '=' !in line
    ensures ConfigLine(s, line).None?
  {
  }

  /**
   * A line with its first '=' at pos: the key is what precedes it, so every
   * later '=' belongs to the value. A known key not set before is recorded
   * with that value; an unknown key or a key set before changes nothing.
   */
  lemma KeyValueLine(s: Settings, line: string, pos: nat)
    requires pos < |line| && line[pos] == '=' && '=' !in line[..pos]
    requires pos == 0 || line[0] != '>'
    ensures ConfigLine(s, line) ==
              match KeyOf(line[..pos])
              case None => Some(s)
              case Some(k) =>
                if line[..pos] in s.configMap then Some(s)
                else Assign(s.(configMap := s.configMap[line[..pos] := line[pos + 1..]]), k, line[pos + 1..])
  {
    assert FindEquals(line) == Some(pos);
    assert !IsWhitespace(line) by {
      assert line[pos] == '=';
    }
    assert ConfigLine(s, line) == KeyedLine(s, line[..pos], line[pos + 1..]);
  }

  /** A line never changes what the map holds for a key already set. */
  lemma ParseLineKeeps(s: Settings, line: string, key: string)
    requires key in s.configMap && ConfigLine(s, line).Some?
    ensures key in ConfigLine(s, line).value.configMap
    ensures ConfigLine(s, line).value.configMap[key] == s.configMap[key]
  {
  }

  /** The first line that sets a key wins over all later ones. */
  lemma {:induction false} FirstOccurrenceWins(s: Settings, lines: seq<string>, key: string)
    requires key in s.configMap && ConfigLines(s, lines).Some?
    ensures key in ConfigLines(s, lines).value.configMap
    ensures ConfigLines(s, lines).value.configMap[key] == s.configMap[key]
    decreases |lines|
  {
    if |lines| > 0 {
      FirstOccurrenceWins(s, lines[..|lines| - 1], key);
      ParseLineKeeps(ConfigLines(s, lines[..|lines| - 1]).value, lines[|lines| - 1], key);
    }
  }

  /** Once a line throws, Parse has thrown, whatever follows. */
  lemma {:induction false} ThrowStops(s: Settings, lines: seq<string>, more: seq<string>)
    requires ConfigLines(s, lines).None?
    ensures ConfigLines(s, lines + more).None?
    decreases |more|
  {
    if |more| == 0 {
      assert lines + more == lines;
    } else {
      assert (lines + more)[..|lines + more| - 1] == lines + more[..|more| - 1];
      ThrowStops(s, lines, more[..|more| - 1]);
    }
  }

  /** One more line of the loop. */
  lemma ConfigLinesNext(s: Settings, lines: seq<string>, i: nat)
    requires i < |lines|
    ensures ConfigLines(s, lines[..i + 1]) == match ConfigLines(s, lines[..i])
                                              case None => None
                                              case Some(u) => ConfigLine(u, lines[i])
  {
    assert lines[..i + 1][..i] == lines[..i];
  }

  /** A line that throws ends the loop with a throw. */
  lemma ThrowEnds(s: Settings, lines: seq<string>, i: nat)
    requires i < |lines| && ConfigLines(s, lines[..i + 1]).None?
    ensures ConfigLines(s, lines).None?
  {
    ThrowStops(s, lines[..i + 1], lines[i + 1..]);
    assert lines[..i + 1] + lines[i + 1..] == lines;
  }

  /** The copy numbers are unsigned: a negative value wraps round. */
  lemma NegativeCopyNumber(s: Settings, n: int)
    requires IntMin <= n < 0
    ensures Assign(s, FptCopyNumber, Show(n)) == Some(s.(fptCopyNumber := n + 0x1_0000_0000))
  {
    StoiShow(n, "");
    assert Show(n) + "" == Show(n);
  }

  /** A letter of the meaningful_letters value, in either case, is not an N letter; no other character is legitimate. */
  lemma LegitimateLetters(value: string, c: char)
    ensures !IsNLetter(LettersOf(value), c) <==> exists k :: 0 <= k < |value| && ToUpper(value[k]) == ToUpper(c)
  {
    LettersOfValue(value, ToUpper(c));
  }

  /** The Config structure, which Parse fills; its fields are kept as one Settings value. */
  class Config {
    var settings: Settings

    constructor ()
      ensures settings == Defaults
    {
      settings := Defaults;
    }

    /**
     * Parse over the lines of the configuration file, then the letters of
     * meaningful_letters. Returns false where Parse throws; the fields are
     * then partly set.
     */
    method Parse(lines: seq<string>) returns (ok: bool)
      modifies this
      ensures ok <==> ConfigLines(old(settings), lines).Some?
      ensures ok ==> settings == WithLetters(ConfigLines(old(settings), lines).value)
    {
      ghost var before := settings;
      var i := 0;
      while i < |lines|
        invariant 0 <= i <= |lines|
        invariant ConfigLines(before, lines[..i]) == Some(settings)
      {
        ConfigLinesNext(before, lines, i);
        ok := ParseLine(lines[i]);
        if !ok {
          ThrowEnds(before, lines, i);
          return;
        }
        i := i + 1;
      }
      assert lines[..i] == lines;
      InsertLetters();
      ok := true;
    }

    /** The loop over the meaningful_letters value, which the lookup creates when it is missing. */
    method InsertLetters()
      modifies this
      ensures settings == WithLetters(old(settings))
    {
      var name := Label(MeaningfulLetters);
      if name !in settings.configMap {
        settings := settings.(configMap := settings.configMap[name := ""]);
      } else {
        AddLetters(settings.configMap[name]);
      }
    }

    method AddLetters(value: string)
      modifies this
      ensures settings == old(settings).(letters := old(settings).letters + LettersOf(value))
    {
      var i := 0;
      while i < |value|
        invariant 0 <= i <= |value|
        invariant settings == old(settings).(letters := old(settings).letters + LettersOf(value[..i]))
      {
        assert value[..i + 1][..i] == value[..i];
        settings := settings.(letters := settings.letters + {ToUpper(value[i])});
        i := i + 1;
      }
      assert value[..i] == value;
    }

    /** One line of the loop. */
    method ParseLine(line: string) returns (ok: bool)
      modifies this
      ensures ok <==> ConfigLine(old(settings), line).Some?
      ensures ok ==> settings == ConfigLine(old(settings), line).value
    {
      ghost var s0 := settings;
      ok := true;
      if |line| > 0 && line[0] == '>' {
        return;
      }
      if IsWhitespace(line) {
        return;
      }
      var pos := FindEquals(line);
      if pos.None? {
        return false;
      }
      var first := line[..pos.value];
      var second := line[pos.value + 1..];
      var k := KeyOf(first);
      if k.None? {
        return;
      }
      if first in settings.configMap {
        return;
      }
      assert ConfigLine(s0, line) == KeyedLine(s0, first, second);
      settings := settings.(configMap := settings.configMap[first := second]);
      ok := SetValue(k.value, second);
    }

    /** The assignment to the field of a key. */
    method SetValue(k: Key, value: string) returns (ok: bool)
      modifies this
      ensures ok <==> Assign(old(settings), k, value).Some?
      ensures ok ==> settings == Assign(old(settings), k, value).value
    {
      ok := true;
      if IsNumeric(k) {
        var n := Stoi(value);
        if n.None? {
          return false;
        }
        settings := SetNumber(settings, k, n.value);
      } else if IsFlag(k) {
        settings := SetFlag(settings, k, IsYes(value));
      } else if IsStatus(k) {
        settings := SetStatus(settings, k, ReadFilterStatus(value));
      } else if k == MaskingCharacter {
        if |value| == 0 {
          return false;
        }
        settings := settings.(maskingCharacter := value[0]);
      }
    }
  }
}
