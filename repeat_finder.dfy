/**
 * process_file of T24 as one method: the header loop, the seeding loop,
 * the copy filter, start2seq, the extension loop, the shape filters,
 * culling, the footprint bitmap and its count, and for the footprint
 * process the islands and the masked copy. Each step is the method of its
 * own module; this module states what the whole run returns.
 */
module RepeatFinder {
  import opened Wrappers
  import opened Grouping
  import Seeding
  import Extension
  import ShapeFilters
  import Culling
  import Footprint
  import Fasta
  import T24Config

  /** Process_Type: the footprint run or the coordinates run. */
  datatype ProcessType = Fpt | Crd

  /** min_repeat_length of the process type. */
  function MinRepeatLength(s: T24Config.Settings, pt: ProcessType): int {
    match pt
    case Fpt => s.fptMinRepeatLength
    case Crd => s.crdMinRepeatLength
  }

  /** copy_number of the process type. */
  function CopyNumber(s: T24Config.Settings, pt: ProcessType): nat {
    match pt
    case Fpt => s.fptCopyNumber
    case Crd => s.crdCopyNumber
  }

  /** Every repeat of the extension lies inside the full buffer. */
  lemma ExtendedInBounds(fb: string, m: nat, letters: set<char>, c: nat, levels: map<nat, Level>, maxLength: nat)
    requires Extension.Extended(fb, Seeding.SeedLevel(fb, m, letters, c), m, c, levels, maxLength)
    ensures Footprint.InBounds(levels, |fb|)
  {
    forall len, p | len in levels && p in levels[len]
      ensures p + len <= |fb|
    {
      if len == m {
        Seeding.SeedLevelMembers(fb, m, letters, c, p);
      } else {
        Extension.ExtendedLevel(fb, Seeding.SeedLevel(fb, m, letters, c), m, c, levels, maxLength, len, p);
      }
    }
  }

  /** The shape filters only drop entries. */
  lemma FilteredInBounds(levels: map<nat, Level>, m: nat, maxLength: nat, s: T24Config.Settings, n: nat)
    requires Footprint.InBounds(levels, n)
    requires Shaped(levels, m, maxLength, s).Some?
    ensures Footprint.InBounds(Shaped(levels, m, maxLength, s).value, n)
  {
    var r := Shaped(levels, m, maxLength, s).value;
    forall len, p | len in r && p in r[len]
      ensures p + len <= n
    {
      assert len in levels;
      if m <= len <= maxLength {
        ShapeFilters.FilteredIsIntersection(levels, m, maxLength, s.onlyPalindromes, s.palindromeCenter, s.palindromeArm,
                                            s.onlyTandems, s.tandemMinUnit, s.tandemUnitCopies, len, p);
      }
    }
  }

  /** Culling only drops entries. */
  lemma CulledInBounds(levels: map<nat, Level>, m: nat, maxLength: nat, n: nat)
    requires Footprint.InBounds(levels, n)
    ensures Footprint.InBounds(Culling.Culled(levels, m, maxLength), n)
  {
    var r := Culling.Culled(levels, m, maxLength);
    forall len, p | len in r && p in r[len]
      ensures p + len <= n
    {
      if m <= len <= maxLength {
        assert p in levels[len];
      }
    }
  }

  /** The shape filters with the settings of the configuration. */
  function Shaped(levels: map<nat, Level>, m: nat, maxLength: nat, s: T24Config.Settings): Option<map<nat, Level>> {
    ShapeFilters.Filtered(levels, m, maxLength, s.onlyPalindromes, s.palindromeCenter, s.palindromeArm,
                          s.onlyTandems, s.tandemMinUnit, s.tandemUnitCopies)
  }

  /** The footprint bitmap of the first n cells as a sequence. */
  ghost function Bits(levels: map<nat, Level>, n: nat): (r: seq<bool>)
    ensures |r| == n && forall i :: 0 <= i < n ==> (r[i] <==> Footprint.Covered(levels, i))
  {
    seq(n, i => Footprint.Covered(levels, i))
  }

  /** The island loop only looks at the cells it passes. */
  lemma {:induction false} IslandsPrefix(a: seq<bool>, b: seq<bool>, n: nat, shift: int)
    requires n <= |a| && n <= |b| && forall i :: 0 <= i < n ==> a[i] == b[i]
    ensures Footprint.IslandsUpTo(a, n, shift) == Footprint.IslandsUpTo(b, n, shift)
  {
    if n > 0 {
      IslandsPrefix(a, b, n - 1, shift);
    }
  }

  /** What one run computes. */
  datatype Outcome = Outcome(
    fullbuffer: string, origin: int, meaningful: nat,
    extended: map<nat, Level>, maxLength: nat,
    filtered: map<nat, Level>, culled: map<nat, Level>,
    footprintCount: nat, islandCount: nat, endpoints: seq<int>, masked: string)

  /** The run stops with Fatal: std::stoll throws on a header, or the tandem settings are below 1. */
  predicate Fails(input: string, s: T24Config.Settings) {
    || Fasta.SkipHeaderOrigin(input, s.absoluteOrigin).None?
    || (s.onlyTandems && (s.tandemMinUnit < 1 || s.tandemUnitCopies < 1))
  }

  /** The outcome of a run that does not fail, step by step. */
  ghost predicate Describes(input: string, s: T24Config.Settings, pt: ProcessType, out: Outcome)
    requires MinRepeatLength(s, pt) >= 1
  {
    var m: nat := MinRepeatLength(s, pt);
    var c := CopyNumber(s, pt);
    var header := Fasta.SkipHeaderOrigin(input, s.absoluteOrigin);
    var fb := out.fullbuffer;
    && header.Some? && out.origin == header.value.1
    && fb == Seeding.FullBuffer(header.value.0, m)
    && out.meaningful == Seeding.Meaningful(fb, s.letters, m, |fb|)
    && Extension.Extended(fb, Seeding.SeedLevel(fb, m, s.letters, c), m, c, out.extended, out.maxLength)
    && Shaped(out.extended, m, out.maxLength, s) == Some(out.filtered)
    && out.culled == Culling.Culled(out.filtered, m, out.maxLength)
    && out.footprintCount == |set i: nat | i < |fb| && Footprint.Covered(out.culled, i)|
    && (pt == Fpt ==>
         && out.islandCount == Footprint.IslandsUpTo(Bits(out.culled, |fb|), |fb|, s.shiftCoordinates).count
         && out.endpoints == (if s.createMaskedFile then Footprint.IslandsUpTo(Bits(out.culled, |fb|), |fb|, s.shiftCoordinates).endpoints else []))
    && (pt == Crd ==> out.islandCount == 0 && out.endpoints == [])
    && (pt == Fpt && s.createMaskedFile ==>
         && |out.masked| == |fb|
         && forall pos :: 0 <= pos < |fb| ==>
              out.masked[pos] == if Footprint.MaskedAt(out.endpoints, pos) then s.maskingCharacter else fb[pos])
    && (!(pt == Fpt && s.createMaskedFile) ==> out.masked == [])
  }

  /** process_file on the text of one input file. */
  method ProcessFile(input: string, s: T24Config.Settings, pt: ProcessType) returns (r: Option<Outcome>)
    requires MinRepeatLength(s, pt) >= 1
    ensures r.None? <==> Fails(input, s)
    ensures r.Some? ==> Describes(input, s, pt, r.value)
  {
    var skipped := Fasta.SkipHeaderT24(input, s.absoluteOrigin);
    if skipped.None? {
      return None;
    }
    var data := skipped.value.0;
    var origin := skipped.value.1;
    var m: nat := MinRepeatLength(s, pt);
    var c := CopyNumber(s, pt);
    var fb, seeds, meaningful, controls := Seeding.SeedScan(data, m, s.letters);
    var levels, maxLength, filtered, culled := Repeats(fb, seeds, m, c, s);
    if filtered.None? {
      return None;
    }
    var count, islandCount, endpoints, masked := Outputs(fb, |data|, culled, s, pt);
    r := Some(Outcome(fb, origin, meaningful, levels, maxLength, filtered.value, culled, count, islandCount, endpoints, masked));
  }

  /** From the seeds to the culled repeats; None where the tandem settings are fatal. */
  method Repeats(fb: string, seeds: Groups, m: nat, c: nat, s: T24Config.Settings)
      returns (levels: map<nat, Level>, maxLength: nat, filtered: Option<map<nat, Level>>, culled: map<nat, Level>)
    requires seeds == Seeding.AllSeeds(fb, m, s.letters)
    ensures Extension.Extended(fb, Seeding.SeedLevel(fb, m, s.letters, c), m, c, levels, maxLength)
    ensures filtered == Shaped(levels, m, maxLength, s)
    ensures filtered.None? <==> s.onlyTandems && (s.tandemMinUnit < 1 || s.tandemUnitCopies < 1)
    ensures filtered.Some? ==> culled == Culling.Culled(filtered.value, m, maxLength) && Footprint.InBounds(culled, |fb|)
  {
    levels, maxLength := Extend(fb, seeds, m, c, s.letters);
    filtered := ShapeFilters.ApplyShapeFilters(levels, m, maxLength, s.onlyPalindromes, s.palindromeCenter, s.palindromeArm,
                                               s.onlyTandems, s.tandemMinUnit, s.tandemUnitCopies);
    ShapeFilters.TandemFatal(levels, m, maxLength, s.onlyPalindromes, s.palindromeCenter, s.palindromeArm,
                             s.tandemMinUnit, s.tandemUnitCopies);
    culled := map[];
    if filtered.Some? {
      culled := Culling.Cull(filtered.value, m, maxLength);
      ExtendedInBounds(fb, m, s.letters, c, levels, maxLength);
      FilteredInBounds(levels, m, maxLength, s, |fb|);
      CulledInBounds(filtered.value, m, maxLength, |fb|);
    }
  }

  /** The copy filter, start2seq and the extension loop. */
  method Extend(fb: string, seeds: Groups, m: nat, c: nat, letters: set<char>) returns (levels: map<nat, Level>, maxLength: nat)
    requires seeds == Seeding.AllSeeds(fb, m, letters)
    ensures Extension.Extended(fb, Seeding.SeedLevel(fb, m, letters, c), m, c, levels, maxLength)
  {
    var frequent := CopyFilter(seeds, c);
    Seeding.SeedsDisjoint(fb, m, letters);
    FrequentDisjoint(seeds, c);
    var seedLevel := Flatten(frequent);
    levels, maxLength := Extension.Extend(fb, seedLevel, m, c);
  }

  /** The footprint bitmap, its count, and for the footprint process the islands and the masked copy. */
  method Outputs(fb: string, capacity: nat, culled: map<nat, Level>, s: T24Config.Settings, pt: ProcessType)
      returns (count: nat, islandCount: nat, endpoints: seq<int>, masked: string)
    requires |fb| <= capacity && Footprint.InBounds(culled, |fb|)
    ensures count == |set i: nat | i < |fb| && Footprint.Covered(culled, i)|
    ensures pt == Fpt ==>
      && islandCount == Footprint.IslandsUpTo(Bits(culled, |fb|), |fb|, s.shiftCoordinates).count
      && endpoints == (if s.createMaskedFile then Footprint.IslandsUpTo(Bits(culled, |fb|), |fb|, s.shiftCoordinates).endpoints else [])
    ensures pt == Crd ==> islandCount == 0 && endpoints == []
    ensures pt == Fpt && s.createMaskedFile ==>
      && |masked| == |fb|
      && forall pos :: 0 <= pos < |fb| ==>
           masked[pos] == if Footprint.MaskedAt(endpoints, pos) then s.maskingCharacter else fb[pos]
    ensures !(pt == Fpt && s.createMaskedFile) ==> masked == []
  {
    var fp := Footprint.Footprints(culled, capacity);
    count := Footprint.CountFootprints(fp);
    Footprint.FootprintCount(culled, fp[..], |fb|);
    islandCount, endpoints, masked := 0, [], [];
    if pt == Fpt {
      islandCount, endpoints := Footprint.Islands(fp, |fb|, s.shiftCoordinates, s.createMaskedFile);
      IslandsPrefix(fp[..], Bits(culled, |fb|), |fb|, s.shiftCoordinates);
      if s.createMaskedFile {
        masked := Footprint.Masked(fb, endpoints, s.maskingCharacter);
      }
    }
  }
}
