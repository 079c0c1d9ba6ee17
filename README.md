# dnaresonance core in Dafny

This project models the computational core of the dnaresonance tools and proves properties of that model. It covers three programs.

**T24, the repeat finder.** `process_file` reads a FASTA file and skips its `>` header lines. A `range=<id>:<digits>-` match in a header sets `absolute_origin`.
- **Seeding loop.** The rest goes into a full buffer. The first `m` characters are copied as they are (`m` is `min_repeat_length`). Every later character is a check letter. A control character is counted and dropped. A letter that is not in `meaningful_letters` is an N letter; it only moves the last-N position. Any other letter is counted as meaningful. The window of `m` characters ending at the letter is recorded in `seq2positions` only when no N letter lies in it.
- **Copy filter.** Contents seen fewer than `copy_number` times are dropped, and `start2seq` lists the remaining starts.
- **Extension loop.** Each start of length L−1 is grown to length L, at most one length at a time (L runs m+1, m+2, ...). A start is kept at L when its window still fits in the buffer and its content occurs at `copy_number` or more starts. The loop stops at the first empty length.
- **Shape filters.** They keep only palindromes (`is_palindrome`) and only tandems (`is_tandem`).
- **Culling.** It removes every repeat nested inside a longer one.
- **Footprint.** Culling is followed by the footprint bitmap and its count. For the footprint process come the islands (runs of covered cells) and the masked copy of the buffer.

The configuration lines of `Config::Parse`, `ReadFilterStatus` and the predicates of `Config.h` are modelled too.

**T22, TopStopWork.**
- **`ReadConfig`.** It fills the parameter dictionary and maps each dinucleotide to a B type letter and a bond.
- **First pass: bonds, B types and circuits.** It walks the dinucleotides of the input. For each one it writes its bond glyph and B type and runs the two-circuit machine: `processBond` and the `finalizeCircuit*` lambdas. That machine records `[start, end)` intervals for circuit 1 and circuit 2.
- **Second phase: length histogram.** It counts the interval lengths.
- **Third phase: TOPSTOP scan.** It writes one TOPSTOP letter (s, i, p, y or x) per position through `PrintTopstopAndShiftPosition`.
- **Fourth phase: CHAINS translation.** It translates the TOPSTOP file into the CHAINS file.

The bond and status tables of `Extensions.cs` are modelled as well.

**T32.** The header loop of `process_file`, and `create_from_legit_letters`. That function sizes its buffer to what is left of the file after the header. When nothing follows the header, the header loop has already met the end of the file, `tellg` fails and returns -1, and the buffer is one cell larger than the whole file. It reads in chunks of eight bytes and keeps only the alphabetic ones.

**Form of the model.** Code that changes state is modelled as methods with loops. Each is proved against a specification function.
- State that the source keeps in objects or captured locals is a `class`:
  - the circuit variables of the `processBond` closures;
  - `Config`;
  - the `TopStopWork` dictionaries;
  - the printer.
- The footprint bitmap is an `array<bool>`, and so is the T32 buffer.
- Failures that throw or call `Fatal` become `Option` or `Result` values. That covers a config line without `=`, an out-of-range `stoi`/`stoll`, the tandem settings below 1 and an unknown bond glyph.

Where the code and its documentation disagree, the model follows the code.
- **`is_palindrome` and a perfect mirror.** When the whole first half mirrors, the arm is taken as one less than half the length. So "ATTA" is rejected with `palindrome_center` 2 and `palindrome_arm` 2 (`Palindrome.PerfectMirrorRejected`).
- **Both shape filters on.** With palindromes and tandems both requested, this `process_file` keeps the intersection of the two filters. It subtracts nothing.
- **The masked pass.**
  - It compares island end points, which include the `shift`, with unshifted buffer positions.
  - A one-cell island gives the same start and end point. The toggle then only sees the first, and masks everything after it (`Footprint.SingleCellMasksRest`).
  - The last cell of an island is copied, not masked (`Footprint.LastCellCopied`).
- **The seed's stored position.** The seed content is the `m` characters ending at the check letter, but it is stored under the position before it. So a stored content begins one character after its key.
- **Touching intervals in the TOPSTOP scan.** The scan counts circuits correctly only when no interval of a circuit ends where the next one starts. The first pass never records such intervals. Two intervals of one circuit could touch only if the circuit were closed and reopened at the same bond, and that needs a second circuit on the same strand; open circuits are always on opposite strands (`Circuits.OppositeStrands`). `TopStopScan.TouchingIntervals` shows what the scan would write otherwise: `s` at the shared position.
- **Endpoints that repeat in the masked pass.** A one-cell island gives two equal end points. From there on the toggle stays where it was, so the end points after the repeated one have no effect (`Footprint.ToggleStalls`, `Footprint.MaskBeforeStall`).

## Model

| member | source | states |
|---|---|---|
| Palindrome.Verdict | T24/T24_CPP/T24_CPP.cpp:30-72 | a minimum arm of at most 0 or an empty sequence passes; otherwise the sequence fails exactly when the arm is below the minimum or the stalk (length minus twice the arm) exceeds the maximum stalk, which counts as 0 when negative |
| Palindrome.IsPalindrome | T24/T24_CPP/T24_CPP.cpp:30-72 | the loop with its early returns gives exactly the verdict of the arm and stalk rule |
| Palindrome.MismatchFrom | T24/T24_CPP/T24_CPP.cpp:56-62 | the first position of the first half from i on that does not mirror, with all positions before it mirroring; none when all mirror |
| Palindrome.ArmLength | T24/T24_CPP/T24_CPP.cpp:52-62 | the arm is below half the length for sequences of two or more characters, and 0 for shorter ones |
| Palindrome.MismatchAt | T24/T24_CPP/T24_CPP.cpp:56-62 | the arm is the first mismatch, or one less than half the length when the first half mirrors |
| Palindrome.ArmIsFirstMismatch | T24/T24_CPP/T24_CPP.cpp:56-62 | the arm is the index of the first position that does not mirror |
| Palindrome.ArmOfPerfectMirror | T24/T24_CPP/T24_CPP.cpp:56-62 | when the whole first half mirrors, the arm is half the length minus one |
| Palindrome.StalkAtLeastTwo | T24/T24_CPP/T24_CPP.cpp:52-70 | the stalk is always at least 2, so with a positive minimum arm a maximum stalk below 2 rejects every sequence |
| Palindrome.PerfectMirrorRejected | T24/T24_CPP/T24_CPP.cpp:52-70 | "ATTA" has arm 1 and is rejected with center 2 and arm 2 |
| Palindrome.Reverse | T24/T24_CPP/T24_CPP.cpp:30-72 | the reversal has the same length and holds the characters in the opposite order |
| Palindrome.ReverseVerdict | T24/T24_CPP/T24_CPP.cpp:30-72 | reversing a sequence does not change its verdict |
| Tandem.UnitFrom | T24/T24_CPP/T24_CPP.cpp:99-101 | the shortest admissible unit length from d on, or none when no length from d on makes the string a tandem |
| Tandem.TandemIff | T24/T24_CPP/T24_CPP.cpp:99-101 | a string is a tandem exactly when some unit length of at least `tandem_min_unit` repeats it, case-insensitively and with no remainder, at least `tandem_unit_copies` times over word characters |
| Tandem.IsTandem | T24/T24_CPP/T24_CPP.cpp:99-101 | a tandem is non-empty and at least `tandem_min_unit` long |
| Tandem.OneCopy | T24/T24_CPP/T24_CPP.cpp:452-460 | with one copy, a string matches exactly when it is non-empty, at least a unit long and all word characters |
| Tandem.Copies | T24/T24_CPP/T24_CPP.cpp:458-460 | k copies of a unit are k times as long |
| Tandem.CopiesPeriodic | T24/T24_CPP/T24_CPP.cpp:458-460 | in k copies of a unit, every character past the first unit equals the one a unit before it |
| Tandem.CopiesAreTandem | T24/T24_CPP/T24_CPP.cpp:458-460 | k copies of a word unit of at least the minimum length, with k at least the copy number, pass the tandem match |
| Grouping.AddPosition | T24/T24_CPP/T24_CPP.cpp:275-281 | the position is added under its content and every other content keeps its positions |
| Grouping.Frequent | T24/T24_CPP/T24_CPP.cpp:302-311 | a content survives exactly when it has at least `copy_number` positions, and keeps all of them |
| Grouping.CopyFilter | T24/T24_CPP/T24_CPP.cpp:302-311 | the erase loop over `seq2positions` leaves the frequent contents |
| Grouping.FlatLevel | T24/T24_CPP/T24_CPP.cpp:330-336 | every position of every content maps to that content, and every entry comes from one |
| Grouping.FrequentDisjoint | T24/T24_CPP/T24_CPP.cpp:302-311 | the copy filter keeps positions under one content each |
| Grouping.Flatten | T24/T24_CPP/T24_CPP.cpp:330-336 | the nested loop builds `start2seq` from the contents and their positions |
| Grouping.AddStarts | T24/T24_CPP/T24_CPP.cpp:333-335 | the inner loop adds the positions of one content and keeps what was there |
| Seeding.FullBuffer | T24/T24_CPP/T24_CPP.cpp:175-258 | the full buffer is no longer than the data, starts with its first `m` characters and holds no control character after them; data without control characters is taken whole |
| Seeding.NonControlKeeps | T24/T24_CPP/T24_CPP.cpp:250-258 | a text without control characters passes whole |
| Seeding.NonControl | T24/T24_CPP/T24_CPP.cpp:250-258 | the characters kept are the input's non-control characters, no more of them |
| Seeding.LastN | T24/T24_CPP/T24_CPP.cpp:260-268 | the index of the last N letter seen, with no N letter after it, or -1 |
| Seeding.SeedContent | T24/T24_CPP/T24_CPP.cpp:272 | the content copied for a window is `m` characters long |
| Seeding.Meaningful | T24/T24_CPP/T24_CPP.cpp:258-270 | the count of meaningful letters is at most the number of check letters |
| Seeding.SeedsMembers | T24/T24_CPP/T24_CPP.cpp:260-281 | a position is recorded under a content exactly when its window qualifies and holds that content |
| Seeding.SeedsNonEmpty | T24/T24_CPP/T24_CPP.cpp:275-281 | every recorded content has at least one position |
| Seeding.SeedsDisjoint | T24/T24_CPP/T24_CPP.cpp:275-281 | each position is recorded under at most one content |
| Seeding.SeedLevelMembers | T24/T24_CPP/T24_CPP.cpp:302-345 | a start of length m is exactly a qualifying window whose content was seen at least `copy_number` times, and stores that content |
| Seeding.SeedCopies | T24/T24_CPP/T24_CPP.cpp:260-281 | the copy number of a content is the number of qualifying windows holding it |
| Seeding.SeedsGrow | T24/T24_CPP/T24_CPP.cpp:258-281 | appending to the buffer does not change the windows already recorded |
| Seeding.LastNGrow | T24/T24_CPP/T24_CPP.cpp:260-268 | appending to the buffer does not change the last N letter of a prefix |
| Seeding.MeaningfulGrow | T24/T24_CPP/T24_CPP.cpp:258-270 | appending to the buffer does not change the count over a prefix |
| Seeding.WindowRule | T24/T24_CPP/T24_CPP.cpp:260-270 | a window is recorded exactly when its check letter is not N and the last N letter lies at least `m` before the check letter |
| Seeding.NonControlAppend | T24/T24_CPP/T24_CPP.cpp:250-258 | dropping control characters distributes over concatenation |
| Seeding.ControlSkipped | T24/T24_CPP/T24_CPP.cpp:250-255 | a control character after the first `m` neither enters the full buffer nor moves the position |
| Seeding.ScanStep | T24/T24_CPP/T24_CPP.cpp:260-281 | one check letter adds its window to `seq2positions` exactly when it qualifies |
| Seeding.NonControlStep | T24/T24_CPP/T24_CPP.cpp:250-258 | one more input character adds itself to the buffer, or nothing when it is a control character |
| Seeding.InitialLastN | T24/T24_CPP/T24_CPP.cpp:212-221 | the scan of the first `m` characters finds the last N letter among them |
| Seeding.ScanLetter | T24/T24_CPP/T24_CPP.cpp:258-281 | appending a non-control check letter updates the last N position, the meaningful count and `seq2positions` to those of the longer buffer |
| Seeding.BufferStep | T24/T24_CPP/T24_CPP.cpp:258-281 | the counters and `seq2positions` of the buffer with one more letter |
| Seeding.LastNAppend | T24/T24_CPP/T24_CPP.cpp:260-263 | a new N letter becomes the last one; any other letter leaves it |
| Seeding.MeaningfulAppend | T24/T24_CPP/T24_CPP.cpp:266-270 | a new letter adds one to the count exactly when it is not N |
| Seeding.SeedsAppend | T24/T24_CPP/T24_CPP.cpp:260-281 | the new window is added exactly when it qualifies |
| Seeding.QualifiesAppend | T24/T24_CPP/T24_CPP.cpp:260-270 | the new window qualifies exactly when the letter is not N and the last N letter is at least `m` back |
| Seeding.ScanChar | T24/T24_CPP/T24_CPP.cpp:240-289 | one pass of the loop body keeps the buffer, counters and `seq2positions` those of the data read so far |
| Seeding.SeedScan | T24/T24_CPP/T24_CPP.cpp:168-300 | the loop builds the full buffer (the first `m` characters, then the non-control rest), `seq2positions`, the meaningful count, and a control count that with the buffer size makes up the data |
| Extension.GroupedMembers | T24/T24_CPP/T24_CPP.cpp:360-380 | a start is grouped under a content exactly when it is a start of the level, it fits, and its window holds that content |
| Extension.GroupedDisjoint | T24/T24_CPP/T24_CPP.cpp:360-380 | each start is grouped under one content |
| Extension.GroupedStarts | T24/T24_CPP/T24_CPP.cpp:360-380 | the starts grouped under a content are all the fitting starts whose window holds it |
| Extension.NextUpToMembers | T24/T24_CPP/T24_CPP.cpp:382-406 | a start is kept exactly when it fits and its content has enough copies, and it stores its window |
| Extension.NextMembers | T24/T24_CPP/T24_CPP.cpp:382-406 | the next level holds exactly the kept starts, each with `fullbuffer[p, p+L)` |
| Extension.FlatIsNext | T24/T24_CPP/T24_CPP.cpp:382-406 | filtering the grouped starts and flattening them gives the next level |
| Extension.FlatMember | T24/T24_CPP/T24_CPP.cpp:401-406 | the flattened map and the next level agree on every start |
| Extension.NextCopies | T24/T24_CPP/T24_CPP.cpp:382-391 | every content of the next level occurs at `copy_number` or more of its starts |
| Extension.NextBelowBuffer | T24/T24_CPP/T24_CPP.cpp:364-367 | a non-empty next level means the length is below the buffer size |
| Extension.NothingFrequent | T24/T24_CPP/T24_CPP.cpp:395-398 | the loop breaks exactly when the next level would be empty |
| Extension.GroupedNonEmpty | T24/T24_CPP/T24_CPP.cpp:360-380 | every grouped content has a start |
| Extension.GroupStarts | T24/T24_CPP/T24_CPP.cpp:360-380 | the grouping loop builds `seq2positions` for the length |
| Extension.ExtendOnce | T24/T24_CPP/T24_CPP.cpp:352-406 | one length: done exactly when nothing is frequent, the next level otherwise |
| Extension.Extend | T24/T24_CPP/T24_CPP.cpp:350-416 | `length2map` holds a level for each length from m to `seq_length_max`, each the next level of the one before and non-empty, and the level after the last is empty |
| Extension.ExtendedUnique | T24/T24_CPP/T24_CPP.cpp:350-416 | the seeds determine the levels and the maximum length |
| Extension.Agree | T24/T24_CPP/T24_CPP.cpp:350-416 | two outcomes of the loop agree on each length both hold |
| Extension.ExtendedLevel | T24/T24_CPP/T24_CPP.cpp:350-416 | a start of length L is a start of L−1, fits, stores `fullbuffer[p, p+L)` and shares its content with at least `copy_number` starts |
| Extension.ExtendedDrops | T24/T24_CPP/T24_CPP.cpp:364-367 | a start whose window reaches the end of the buffer is dropped |
| Extension.ExtendedBelowBuffer | T24/T24_CPP/T24_CPP.cpp:364-367 | a maximum length past m is below the buffer size |
| ShapeFilters.Keep | T24/T24_CPP/T24_CPP.cpp:419-477 | an entry stays exactly when its content has the shape, with its content unchanged |
| ShapeFilters.Test | T24/T24_CPP/T24_CPP.cpp:425-465 | the test is `is_palindrome` or `is_tandem` |
| ShapeFilters.FilterLevel | T24/T24_CPP/T24_CPP.cpp:422-475 | the erase loop over one length leaves the entries with the shape |
| ShapeFilters.FilterLevels | T24/T24_CPP/T24_CPP.cpp:419-477 | every length from m to the maximum is filtered and the rest kept |
| ShapeFilters.ApplyShapeFilters | T24/T24_CPP/T24_CPP.cpp:419-477 | palindromes first, then tandems, with a fatal stop for a unit or copies below 1 |
| ShapeFilters.FilteredIsIntersection | T24/T24_CPP/T24_CPP.cpp:419-477 | an entry survives exactly when its content passes every filter that is on |
| ShapeFilters.TandemFatal | T24/T24_CPP/T24_CPP.cpp:446-451 | the tandem filter stops the program exactly when the unit or the copies are below 1 |
| ShapeFilters.SingleCopyStillFilters | T24/T24_CPP/T24_CPP.cpp:452-460 | with one copy the filter still runs and keeps the words of at least the minimum unit |
| Culling.NestTransitive | T24/T24_CPP/T24_CPP.cpp:504 | nesting of windows is transitive |
| Culling.Outside | T24/T24_CPP/T24_CPP.cpp:504-508 | the entries that none of the given repeats holds, unchanged |
| Culling.OutsideAdd | T24/T24_CPP/T24_CPP.cpp:499-508 | erasing under one more repeat is erasing under the larger set |
| Culling.EraseInside | T24/T24_CPP/T24_CPP.cpp:504-508 | the `cull_start` loop erases exactly the entries of one length that the repeat holds |
| Culling.CullUnder | T24/T24_CPP/T24_CPP.cpp:501-509 | one repeat erases what it holds at every shorter length and nothing else |
| Culling.CullBy | T24/T24_CPP/T24_CPP.cpp:498-510 | the repeats of one length erase what they hold at the shorter lengths |
| Culling.Remaining | T24/T24_CPP/T24_CPP.cpp:495-511 | the entries of a length that no repeat of a longer length in range holds |
| Culling.Culled | T24/T24_CPP/T24_CPP.cpp:495-511 | culling keeps the set of lengths |
| Culling.CullStep | T24/T24_CPP/T24_CPP.cpp:497-510 | culling by the survivors of a length removes the same as culling by all its repeats |
| Culling.LeftInRight | T24/T24_CPP/T24_CPP.cpp:497-510 | an entry left by one step is not held by any longer repeat |
| Culling.RightInLeft | T24/T24_CPP/T24_CPP.cpp:497-510 | an entry no longer repeat holds is left by the step |
| Culling.Cull | T24/T24_CPP/T24_CPP.cpp:495-511 | the culling loops leave at each length the entries no longer repeat holds |
| Culling.StageStart | T24/T24_CPP/T24_CPP.cpp:495 | the copy before culling is the starting stage |
| Culling.StageEnd | T24/T24_CPP/T24_CPP.cpp:497 | the stage after the last length is the culled map |
| Culling.StageStep | T24/T24_CPP/T24_CPP.cpp:497-510 | culling by one length moves to the next stage |
| Culling.StepBelow | T24/T24_CPP/T24_CPP.cpp:498-509 | one length's step leaves the entries no repeat longer than the next length holds |
| Culling.TopUntouched | T24/T24_CPP/T24_CPP.cpp:497 | the longest length is never culled |
| Culling.SurvivorsApart | T24/T24_CPP/T24_CPP.cpp:495-511 | no surviving repeat lies inside a longer surviving repeat |
| Culling.CoveredBySurvivor | T24/T24_CPP/T24_CPP.cpp:495-511 | every repeat survives or lies inside a longer repeat that survives |
| Footprint.MarkSpan | T24/T24_CPP/T24_CPP.cpp:523-525 | marking one repeat sets its cells and keeps the rest |
| Footprint.MarkLevel | T24/T24_CPP/T24_CPP.cpp:522-526 | marking one length sets the cells its repeats cover |
| Footprint.Footprints | T24/T24_CPP/T24_CPP.cpp:515-527 | `footprints[i]` is true exactly when some culled repeat spans i |
| Footprint.CountUpTo | T24/T24_CPP/T24_CPP.cpp:531-536 | the count of true cells is at most the number of cells |
| Footprint.CountIsCells | T24/T24_CPP/T24_CPP.cpp:531-536 | the count is the number of true cells |
| Footprint.CountFootprints | T24/T24_CPP/T24_CPP.cpp:531-536 | the loop counts the true cells of the bitmap |
| Footprint.CountBeyond | T24/T24_CPP/T24_CPP.cpp:515-536 | false cells past the buffer size do not change the count |
| Footprint.CoveredBelow | T24/T24_CPP/T24_CPP.cpp:515-527 | every covered cell lies in the buffer |
| Footprint.FootprintCount | T24/T24_CPP/T24_CPP.cpp:515-536 | `footprints_count` is the number of covered cells |
| Footprint.CullKeepsCoverage | T24/T24_CPP/T24_CPP.cpp:495-527 | a cell is covered after culling exactly when it was before |
| Footprint.CoveredAfterCull | T24/T24_CPP/T24_CPP.cpp:495-527 | coverage before culling implies coverage after |
| Footprint.SurvivorIsCulled | T24/T24_CPP/T24_CPP.cpp:495-511 | a survivor is an entry of the culled map |
| Footprint.CoveredBeforeCull | T24/T24_CPP/T24_CPP.cpp:495-527 | coverage after culling implies coverage before |
| Footprint.IslandFlag | T24/T24_CPP/T24_CPP.cpp:638-668 | the loop is in an island exactly when the last cell is true, with two end points per island less one for an open island |
| Footprint.IslandEndpoints | T24/T24_CPP/T24_CPP.cpp:638-668 | the even end points are island starts and the odd ones island ends, shifted by `shift_coordinates` |
| Footprint.NewEndpoint | T24/T24_CPP/T24_CPP.cpp:641-663 | a cell adds one end point: a start at an even index or an end at an odd one |
| Footprint.IslandsComplete | T24/T24_CPP/T24_CPP.cpp:638-668 | every island start and every closed island end is recorded |
| Footprint.IslandsSorted | T24/T24_CPP/T24_CPP.cpp:638-668 | the island end points are in increasing order |
| Footprint.SortedUpTo | T24/T24_CPP/T24_CPP.cpp:638-668 | the end points are ordered and none lies past the last cell seen |
| Footprint.Islands | T24/T24_CPP/T24_CPP.cpp:632-668 | the island loop gives the island count, and the end points when the masked file is requested |
| Footprint.Toggle | T24/T24_CPP/T24_CPP.cpp:703-718 | the toggle has met at most as many end points as there are, and as positions passed |
| Footprint.Masked | T24/T24_CPP/T24_CPP.cpp:700-726 | the masked copy is as long as the buffer and holds the masking character exactly where the toggle is on |
| Footprint.ToggleCounts | T24/T24_CPP/T24_CPP.cpp:703-718 | with increasing end points the toggle has passed exactly those below the position, and is on when it passed an odd number |
| Footprint.MaskBetween | T24/T24_CPP/T24_CPP.cpp:700-726 | a position is masked exactly when it lies from an even end point up to, but not including, the next one, or after an odd last one |
| Footprint.WitnessCount | T24/T24_CPP/T24_CPP.cpp:703-718 | the number of end points passed, pinned by one interval that holds the position |
| Footprint.EndpointToggles | T24/T24_CPP/T24_CPP.cpp:705-717 | the cell at an even end point is masked and the cell at an odd one is not |
| Footprint.LastCellCopied | T24/T24_CPP/T24_CPP.cpp:656-726 | the last cell of a closed island is copied, not masked |
| Footprint.SingleCellMasksRest | T24/T24_CPP/T24_CPP.cpp:641-726 | a one-cell island masks every later cell |
| Footprint.ToggleStalls | T24/T24_CPP/T24_CPP.cpp:700-726 | once an end point is not above the one before it, the toggle never passes it, so the later end points have no effect |
| Footprint.TogglePassed | T24/T24_CPP/T24_CPP.cpp:703-718 | the last end point the toggle has met lies before the position |
| Footprint.MaskedPrefix | T24/T24_CPP/T24_CPP.cpp:700-726 | the mask is that of the end points before the first one that does not increase |
| Footprint.MaskBeforeStall | T24/T24_CPP/T24_CPP.cpp:700-726 | for end points increasing up to a repeated one, a position is masked exactly when it lies from an even-indexed end point before the repeat up to, but not including, the next one, or at or after the last end point before the repeat when that one has an even index |
| Footprint.OpenIslandHasNoEnd | T24/T24_CPP/T24_CPP.cpp:638-668 | an island reaching the last cell records its start only |
| Fasta.LineEnd | T24/T24_CPP/T24_CPP.cpp:158 | the first newline at or after i, or the end |
| Fasta.GetLine | T24/T24_CPP/T24_CPP.cpp:158 | `getline` consumes at least one character of non-empty input |
| Fasta.GetLineSplits | T24/T24_CPP/T24_CPP.cpp:158 | the line holds no newline, and the line, the newline and the rest make up the input |
| Fasta.Header | T32/T32_CPP/T32_CPP.cpp:67-71 | the concatenated header lines, and data that does not start with '>' |
| Fasta.SkipHeader | T32/T32_CPP/T32_CPP.cpp:67-71 | the loop consumes the leading '>' lines and concatenates them |
| Fasta.OneHeaderLine | T32/T32_CPP/T32_CPP.cpp:67-71 | one header line before the data gives that line |
| Fasta.GetLineOf | T24/T24_CPP/T24_CPP.cpp:158 | `getline` on a line and its newline gives the line back |
| Fasta.LineEndAt | T24/T24_CPP/T24_CPP.cpp:158 | the line ends at the first newline |
| Fasta.WordRun | T24/T24_CPP/T24_CPP.cpp:155 | the run of word characters lies in the string |
| Fasta.DigitRun | T24/T24_CPP/T24_CPP.cpp:155 | the run of digits lies in the string |
| Fasta.DigitRunDigits | T24/T24_CPP/T24_CPP.cpp:155 | the run holds digits and stops before a non-digit |
| Fasta.RangeDigits | T24/T24_CPP/T24_CPP.cpp:155-163 | the captured group is a non-empty string of digits |
| Fasta.LastRange | T24/T24_CPP/T24_CPP.cpp:155-160 | the last position where `range=<word>:<digits>-` matches, with no match after it, or none at all |
| Fasta.HeaderOrigin | T24/T24_CPP/T24_CPP.cpp:155-163 | the whole-line match fails exactly when the line holds a carriage return or no match; otherwise it captures the digits of the last match |
| Fasta.SkipHeaderOrigin | T24/T24_CPP/T24_CPP.cpp:153-165 | the data after the header is a suffix of the input that does not start with '>' |
| Fasta.SkipHeaderT24 | T24/T24_CPP/T24_CPP.cpp:153-165 | the header loop sets `absolute_origin` from the last matching header line, failing where `stoll` throws |
| Fasta.NoHeader | T24/T24_CPP/T24_CPP.cpp:157 | input without a header is left alone and keeps the origin |
| Fasta.OriginKept | T24/T24_CPP/T24_CPP.cpp:157-165 | header lines with no match leave `absolute_origin` as it was |
| RepeatFinder.ExtendedInBounds | T24/T24_CPP/T24_CPP.cpp:350-416 | every repeat the extension keeps lies inside the full buffer |
| RepeatFinder.FilteredInBounds | T24/T24_CPP/T24_CPP.cpp:419-477 | the shape filters only drop entries |
| RepeatFinder.CulledInBounds | T24/T24_CPP/T24_CPP.cpp:495-511 | culling only drops entries |
| RepeatFinder.Bits | T24/T24_CPP/T24_CPP.cpp:515-527 | the bitmap of the covered cells |
| RepeatFinder.IslandsPrefix | T24/T24_CPP/T24_CPP.cpp:638-668 | the island loop only reads the cells it passes |
| RepeatFinder.ProcessFile | T24/T24_CPP/T24_CPP.cpp:117-726 | a run fails exactly when `stoll` throws on a header or the tandem settings are below 1; otherwise every stage's result is that of its specification |
| RepeatFinder.Repeats | T24/T24_CPP/T24_CPP.cpp:302-511 | from the seeds to the culled repeats, failing exactly on the fatal tandem settings |
| RepeatFinder.Extend | T24/T24_CPP/T24_CPP.cpp:302-416 | the copy filter, `start2seq` and the extension loop give the extended levels |
| RepeatFinder.Outputs | T24/T24_CPP/T24_CPP.cpp:515-726 | the footprint count, the islands and end points of the footprint process, and the masked copy |
| T24Config.FindKey | T24/T24_CPP/Config.cpp:74-78 | a key found has that label; none means no key has it |
| T24Config.KeyOf | T24/T24_CPP/Config.cpp:25-51 | a known key has the label; unknown otherwise |
| T24Config.DefaultsSplitNothing | T24/T24_CPP/Config.h:25-88 | by default no split is requested, the masking character is 'N', and the shift and origin are 0 |
| T24Config.NLetterIgnoresCase | T24/T24_CPP/Config.h:108-112 | upper and lower case of a character are N letters alike |
| T24Config.ReadFilterStatus | T24/T24_CPP/Config.cpp:168-191 | Exclude exactly for EXCLUDE or NO, Enforce exactly for ENFORCE, YES or INCLUDE (whole string, any case), Ignore otherwise |
| T24Config.WordsDiffer | T24/T24_CPP/Config.cpp:168-191 | a string matches at most one of two words that differ |
| T24Config.ReadStatusName | T24/T24_CPP/Config.cpp:168-191 | the name of a status reads back as that status |
| T24Config.ReadStatusIgnoresCase | T24/T24_CPP/Config.cpp:168-191 | lower-casing the value does not change the status |
| T24Config.LowerMatches | T24/T24_CPP/Config.cpp:84 | a case-insensitive match ignores lower-casing |
| T24Config.ToUnsigned | T24/T24_CPP/Config.cpp:92-97 | a 32-bit `int` stored in an `unsigned int` wraps modulo 2^32 |
| T24Config.SetNumber | T24/T24_CPP/Config.cpp:86-121 | a numeric key sets its field only |
| T24Config.SetFlag | T24/T24_CPP/Config.cpp:123-143 | a boolean key sets its field only |
| T24Config.SetStatus | T24/T24_CPP/Config.cpp:145-153 | a status key sets its field only |
| T24Config.Assign | T24/T24_CPP/Config.cpp:84-157 | a value fails exactly for a numeric key whose `stoi` throws or an empty masking character, which takes the first character otherwise |
| T24Config.FindEquals | T24/T24_CPP/Config.cpp:67 | the first '=' of the line, or none when there is none |
| T24Config.LettersOfValue | T24/T24_CPP/Config.cpp:162-164 | `letters` holds exactly the upper-cased characters of `meaningful_letters` |
| T24Config.SkippedLine | T24/T24_CPP/Config.cpp:61-66 | comment and whitespace lines change nothing |
| T24Config.LineWithoutEquals | T24/T24_CPP/Config.cpp:67-70 | a line with no '=' throws |
| T24Config.ConfigLine | T24/T24_CPP/Config.cpp:59-160 | one line: a comment or blank line never throws; a line that does not throw keeps the letters and every key already set, and a new key is the text before the line's first '=' with the rest as its value |
| T24Config.KeyedLine | T24/T24_CPP/Config.cpp:80-159 | a key and value: the only key that can be added is this one, with this value, and keys already set keep theirs |
| T24Config.ConfigLines | T24/T24_CPP/Config.cpp:59-160 | the lines in order: only a non-empty file can throw, and every key set stays set with its value |
| T24Config.KeyValueLine | T24/T24_CPP/Config.cpp:67-83 | the key is the text before the first '=' and the value all after it |
| T24Config.ParseLineKeeps | T24/T24_CPP/Config.cpp:80-82 | a key already set keeps its value after a line |
| T24Config.FirstOccurrenceWins | T24/T24_CPP/Config.cpp:80-83 | the first occurrence of a known key wins over all later lines |
| T24Config.ThrowStops | T24/T24_CPP/Config.cpp:59-70 | once a line throws, no further line matters |
| T24Config.ConfigLinesNext | T24/T24_CPP/Config.cpp:59-160 | the lines are applied in order |
| T24Config.ThrowEnds | T24/T24_CPP/Config.cpp:59-70 | a throwing line fails the whole parse |
| T24Config.NegativeCopyNumber | T24/T24_CPP/Config.cpp:92-94 | a negative copy number wraps to a value at or above 2^31 |
| T24Config.LegitimateLetters | T24/T24_CPP/Config.h:110-112 | a character is legitimate exactly when some character of `meaningful_letters` upper-cases to its upper case |
| T24Config.Config.constructor | T24/T24_CPP/Config.h:20-92 | a new configuration holds the defaults |
| T24Config.Config.Parse | T24/T24_CPP/Config.cpp:59-164 | the line loop and the letters loop; false exactly where a line throws |
| T24Config.Config.InsertLetters | T24/T24_CPP/Config.cpp:162-164 | the letters of `meaningful_letters` are inserted |
| T24Config.Config.AddLetters | T24/T24_CPP/Config.cpp:162-164 | each character of the value is inserted upper-cased |
| T24Config.Config.ParseLine | T24/T24_CPP/Config.cpp:60-159 | one line updates the settings as its rule says, false where it throws |
| T24Config.Config.SetValue | T24/T24_CPP/Config.cpp:84-157 | one key's value is assigned, false where `stoi` throws |
| Numbers.SkipSpaces | T24/T24_CPP/Config.cpp:87 | the leading white space `stoi` skips |
| Numbers.DigitRun | T24/T24_CPP/Config.cpp:87 | the run of leading digits |
| Numbers.LeadingNumber | T24/T24_CPP/Config.cpp:87 | a value exactly when a digit comes first |
| Numbers.Stoi | T24/T24_CPP/Config.cpp:87 | a result of `stoi` lies in the 32-bit range |
| Numbers.StollDigits | T24/T24_CPP/T24_CPP.cpp:164 | `stoll` of digits succeeds exactly when the value fits a 64-bit signed integer, and gives that value |
| Numbers.Decimal | T24/T24_CPP/Config.cpp:87 | the decimal digits of a natural number |
| Numbers.DecimalValue | T24/T24_CPP/Config.cpp:87 | the digits read back as the number |
| Numbers.DigitRunAll | T24/T24_CPP/Config.cpp:87 | the digit run stops at the first non-digit |
| Numbers.LeadingNumberOf | T24/T24_CPP/Config.cpp:87 | digits before a non-digit read as their value |
| Numbers.StoiShow | T24/T24_CPP/Config.cpp:87 | `stoi` reads back a written 32-bit number |
| Numbers.StoiShowNegative | T24/T24_CPP/Config.cpp:87 | `stoi` reads back a written negative number |
| Numbers.StoiDigits | T24/T24_CPP/Config.cpp:87 | leading digits in range give their value |
| Numbers.StoiNegative | T24/T24_CPP/Config.cpp:87 | a minus sign and digits give the negative value |
| Numbers.StoiSkipsSpace | T24/T24_CPP/Config.cpp:87 | leading white space is skipped |
| Numbers.StoiNeedsDigit | T24/T24_CPP/Config.cpp:87 | a value with no digit throws |
| Chars.ToUpper | T24/T24_CPP/Config.h:110-112 | `toupper` maps lower-case ASCII letters to upper case and leaves the rest |
| Chars.ToLower | T22/Protocodes/TopStopWork.cs:643 | `ToLower` on ASCII: upper-case ASCII letters become lower case, every other character is left |
| Chars.UpperString | T22/Protocodes/TopStopWork.cs:233 | `ToUpper` on ASCII: upper-casing keeps the length and works character by character |
| Chars.LowerString | T22/Protocodes/TopStopWork.cs:643 | `ToLower` on ASCII: lower-casing keeps the length and works character by character |
| Chars.CaseFolds | T24/T24_CPP/Config.h:110-112 | upper-casing the lower case of a character is upper-casing the character |
| Text.TrimStart | T22/Protocodes/TopStopWork.cs:197 | the leading white space removed |
| Text.TrimEnd | T22/Protocodes/TopStopWork.cs:197 | the trailing white space removed |
| Text.LeadingSpace | T22/Protocodes/TopStopWork.cs:197 | the number of white-space characters a line starts with: all before it are white space, the one at it is not |
| Text.Trim | T22/Protocodes/TopStopWork.cs:197 | `Trim`: the result neither starts nor ends with white space, and it is the slice of the line after its leading white space, with only white space after it |
| Text.TrimAround | T22/Protocodes/TopStopWork.cs:197 | a prefix of a suffix, each cut at white space, is a slice with white space after it |
| Text.TrimKeeps | T22/Protocodes/TopStopWork.cs:197 | a line without surrounding white space is unchanged |
| Text.TrimEmpty | T22/Protocodes/TopStopWork.cs:197-201 | a line trims to nothing exactly when it is blank |
| Text.NoneInConcat | T22/Protocodes/TopStopWork.cs:207 | strings free of separators concatenate to one free of them |
| Text.Split | T22/Protocodes/TopStopWork.cs:207 | `Split` gives one more piece than there are separators, none holding a separator |
| Text.JoinSplit | T22/Protocodes/TopStopWork.cs:215 | joining the pieces with the separator gives the string back |
| Text.SplitNone | T22/Protocodes/TopStopWork.cs:207 | a string without separators splits into itself |
| Text.SplitFirst | T22/Protocodes/TopStopWork.cs:207 | a separator-free word and a separator split off first |
| Text.ReadLine | T22/Protocodes/TopStopWork.cs:594 | `ReadLine` stops before the first line break; the line and what follows it are together no longer than the input |
| Text.ReadLineOf | T22/Protocodes/TopStopWork.cs:594 | a line and its line break read back as the line |
| Bonds.HasOrthogonalBond | T22/Protocodes/Extensions.cs:7-19 | true exactly for the four I_* bonds |
| Bonds.HasTopCoaxialBond | T22/Protocodes/Extensions.cs:21-33 | true exactly for the *_TOP and *_BOTH bonds |
| Bonds.HasBottomCoaxialBond | T22/Protocodes/Extensions.cs:35-47 | true exactly for the *_BOTTOM and *_BOTH bonds |
| Bonds.ToPrint | T22/Protocodes/Extensions.cs:49-73 | a two-character glyph: 'I' or '0' for the orthogonal bond, then '^', 'v', '=' or ':' by the coaxial bonds, as in BOND.cs |
| Bonds.ReplaceChar | T22/Protocodes/TopStopWork.cs:238-241 | `Replace` of one character by a one-character text keeps the length |
| Bonds.ReplaceCharRemoves | T22/Protocodes/TopStopWork.cs:238-241 | a replacement text without the character removes every occurrence of it |
| Bonds.ReplaceCharAbsent | T22/Protocodes/TopStopWork.cs:238-241 | a character in neither the text nor the replacement is not in the result |
| Bonds.ReplaceKeepsGlyphsOut | T22/Protocodes/TopStopWork.cs:238-241 | a replacement text without glyphs brings no glyph in |
| Bonds.ReplacementsHaveNoGlyph | T22/Protocodes/TopStopWork.cs:239-241 | O, I, _TOP, _BOTTOM, _BOTH and _NONE hold none of the six glyphs |
| Bonds.RewriteRemovesGlyphs | T22/Protocodes/TopStopWork.cs:238-241 | after the six replacements no glyph is left in the bond description |
| Bonds.RewriteKeepsNames | T22/Protocodes/TopStopWork.cs:238-241 | a description without glyphs, such as an enum name, is left unchanged |
| Bonds.ReplaceAbsent | T22/Protocodes/TopStopWork.cs:238-241 | replacing an absent character changes nothing |
| Bonds.Chain | T22/Protocodes/TopStopWork.cs:238-241 | the six replacements in order are the rewriting |
| Bonds.RewriteI | T22/Protocodes/TopStopWork.cs:238-241 | 'I' is left alone |
| Bonds.RewriteZero | T22/Protocodes/TopStopWork.cs:239 | '0' becomes 'O' |
| Bonds.RewriteTop | T22/Protocodes/TopStopWork.cs:240 | '^' becomes "_TOP" |
| Bonds.RewriteBottom | T22/Protocodes/TopStopWork.cs:240 | 'v' becomes "_BOTTOM" |
| Bonds.RewriteBoth | T22/Protocodes/TopStopWork.cs:241 | '=' becomes "_BOTH" |
| Bonds.RewriteNone | T22/Protocodes/TopStopWork.cs:241 | ':' becomes "_NONE" |
| Bonds.ReplaceConcat | T22/Protocodes/TopStopWork.cs:238-241 | replacing distributes over concatenation |
| Bonds.RewriteConcat | T22/Protocodes/TopStopWork.cs:238-241 | the rewriting distributes over concatenation |
| Bonds.RewritePair | T22/Protocodes/TopStopWork.cs:238-241 | a glyph rewrites character by character |
| Bonds.RewriteFirst | T22/Protocodes/TopStopWork.cs:238-241 | the glyph's first character rewrites to the first part of the name |
| Bonds.RewriteSecond | T22/Protocodes/TopStopWork.cs:238-241 | the glyph's second character rewrites to the rest of the name |
| Bonds.GlyphRewritesToName | T22/Protocodes/Extensions.cs:49-73 | ReadConfig's replacements turn every bond's glyph into its enum name |
| Bonds.ToPrintInjective | T22/Protocodes/Extensions.cs:49-73 | the eight glyphs are distinct |
| Bonds.NoBondGlyphIsNotABond | T22/Protocodes/Extensions.cs:69-70 | no bond prints as ".x" |
| Bonds.ParseBond | T22/Protocodes/TopStopWork.cs:243 | `Enum.TryParse` with case ignored: the bond whose name the upper-cased text is, or none |
| Bonds.UpperStringFixes | T22/Protocodes/TopStopWork.cs:243 | text without lower-case letters is its own upper case |
| Bonds.ParseName | T22/Protocodes/TopStopWork.cs:243 | a bond's name parses back to the bond |
| Bonds.GlyphRoundTrip | T22/Protocodes/TopStopWork.cs:238-245 | a glyph from ToPrint, rewritten and parsed, gives its bond back |
| Bonds.ToChar | T22/Protocodes/Extensions.cs:79-96 | S, I, P, Y and X print as one of "sipyx", and the letter reads back as the status |
| Bonds.ToCharInjective | T22/Protocodes/Extensions.cs:79-96 | the five letters are distinct |
| TopStopPrinter.ToInt32 | T22/Protocodes/PrintTopstopAndShiftPosition.cs:31 | the cast to `int` keeps a value in range and wraps it modulo 2^32 otherwise |
| TopStopPrinter.Repeat | T22/Protocodes/PrintTopstopAndShiftPosition.cs:35-38 | n copies of the character |
| TopStopPrinter.Printer.constructor | T22/Protocodes/PrintTopstopAndShiftPosition.cs:11-15 | the printer starts at the given position with nothing written |
| TopStopPrinter.Printer.GoTo | T22/Protocodes/PrintTopstopAndShiftPosition.cs:27-40 | sets the status; a positive distance (after the cast to `int`) writes that many letters and moves to the target; otherwise nothing is written and the position stays; returns the position |
| TopStopPrinter.Printer.Go | T22/Protocodes/PrintTopstopAndShiftPosition.cs:48-54 | sets the status, writes its letter once and returns the incremented position |
| TopStopConfig.ParameterLine | T22/Protocodes/TopStopWork.cs:210-223 | fails exactly when the word does not split into two parts on '='; otherwise sets `config[key]` to the value |
| TopStopConfig.DinucLine | T22/Protocodes/TopStopWork.cs:225-250 | a configured dinucleotide is skipped; otherwise its B type (upper-cased first character) and its rewritten, parsed bond are recorded, failing on an unknown bond |
| TopStopConfig.ConfigLine | T22/Protocodes/TopStopWork.cs:196-250 | a line keeps the dictionaries consistent and never changes a configured dinucleotide |
| TopStopConfig.ConfigLines | T22/Protocodes/TopStopWork.cs:194-251 | the lines in order keep the dictionaries consistent and configured dinucleotides unchanged |
| TopStopConfig.SkippedLine | T22/Protocodes/TopStopWork.cs:196-205 | blank and comment lines change nothing |
| TopStopConfig.ParameterSetting | T22/Protocodes/TopStopWork.cs:210-223 | a `key=value` line sets `config[key]` to value |
| TopStopConfig.ThreeWords | T22/Protocodes/TopStopWork.cs:207 | three words joined by spaces split back into them |
| TopStopConfig.DinucWords | T22/Protocodes/TopStopWork.cs:207-211 | a line of three words with a two-character first word is a dinucleotide line |
| TopStopConfig.GlyphConfiguresBond | T22/Protocodes/TopStopWork.cs:207-246 | a dinucleotide line written with a bond's glyph configures that bond and the upper-cased B type |
| TopStopConfig.GlyphIsWord | T22/Protocodes/Extensions.cs:49-73 | a glyph is one word with no separator |
| TopStopConfig.GlyphChar | T22/Protocodes/Extensions.cs:49-73 | a glyph character is no separator or white space |
| TopStopConfig.OneCharWord | T22/Protocodes/TopStopWork.cs:207 | a non-separator character is a word |
| TopStopConfig.GlyphDinucLine | T22/Protocodes/TopStopWork.cs:233-246 | the words of such a line set the B type and the bond |
| TopStopConfig.FirstDinucWins | T22/Protocodes/TopStopWork.cs:225-230 | once a dinucleotide is configured, later lines never change it |
| TopStopConfig.FailureStops | T22/Protocodes/TopStopWork.cs:216-221 | a failing line stops ReadConfig |
| TopStopWork.TopStopWork.constructor | T22/Protocodes/TopStopWork.cs:186-194 | the dictionaries start empty and consistent |
| TopStopWork.TopStopWork.ReadConfig | T22/Protocodes/TopStopWork.cs:186-253 | true exactly when no line throws; then the dictionaries are those of the lines and stay consistent |
| TopStopWork.TopStopWork.ReadConfigLine | T22/Protocodes/TopStopWork.cs:196-250 | one line updates the dictionaries as its rule says |
| TopStopWork.TopStopWork.SetParameter | T22/Protocodes/TopStopWork.cs:213-223 | the parameter setting of one line |
| TopStopWork.TopStopWork.SetDinuc | T22/Protocodes/TopStopWork.cs:225-250 | the dinucleotide setting of one line |
| TopStopWork.NonControl | T22/Protocodes/TopStopWork.cs:630-638 | the characters kept hold no control character |
| TopStopWork.NonControlConcat | T22/Protocodes/TopStopWork.cs:630-638 | dropping control characters distributes over concatenation |
| TopStopWork.NonControlPrefix | T22/Protocodes/TopStopWork.cs:630-638 | the kept characters of a prefix and of the rest make up all of them |
| TopStopWork.FirstNonControl | T22/Protocodes/TopStopWork.cs:597-601 | input with a non-control character has a first one |
| TopStopWork.SkippedControl | T22/Protocodes/TopStopWork.cs:630-637 | a control character adds nothing |
| TopStopWork.NextNonControl | T22/Protocodes/TopStopWork.cs:628-641 | a non-control character is the next kept one |
| TopStopWork.PassEnd | T22/Protocodes/TopStopWork.cs:678-682 | `topstopLength` is one less than the number of non-control characters |
| TopStopWork.DinucAt | T22/Protocodes/TopStopWork.cs:640-643 | the dinucleotide at k is the lower-cased pair of kept characters k and k+1 |
| TopStopWork.DinucGlyph | T22/Protocodes/TopStopWork.cs:645-668 | a two-character glyph, ".x" exactly for an unknown dinucleotide |
| TopStopWork.StepCircuits | T22/Protocodes/TopStopWork.cs:645-671 | a dinucleotide keeps the circuit invariant, and an unknown one closes both circuits |
| TopStopWork.BondsOut | T22/Protocodes/TopStopWork.cs:628-673 | two glyph characters per dinucleotide |
| TopStopWork.BTypesOut | T22/Protocodes/TopStopWork.cs:628-673 | one B type letter per dinucleotide |
| TopStopWork.CircuitsAfter | T22/Protocodes/TopStopWork.cs:628-673 | the circuits after n dinucleotides keep the invariant, with nothing after n |
| TopStopWork.PassStep | T22/Protocodes/TopStopWork.cs:640-671 | one more dinucleotide appends its glyph and B type and steps the circuits |
| TopStopWork.UnknownDinucCloses | T22/Protocodes/TopStopWork.cs:664-671 | after an unknown dinucleotide both circuits are NONE |
| TopStopWork.BondsAt | T22/Protocodes/TopStopWork.cs:645-671 | characters 2k and 2k+1 of the BONDS output are the glyph of dinucleotide k |
| TopStopWork.BondsAtLast | T22/Protocodes/TopStopWork.cs:645-671 | the last two characters are the glyph of the last dinucleotide |
| TopStopWork.BTypesAt | T22/Protocodes/TopStopWork.cs:645-671 | character k of the BTYPE output is the letter of dinucleotide k |
| TopStopWork.FirstPass | T22/Protocodes/TopStopWork.cs:589-682 | the BONDS and BTYPE outputs and the circuits are those of the non-control characters, closed at `topstopLength` |
| TopStopWork.PassChar | T22/Protocodes/TopStopWork.cs:628-673 | one input character keeps the outputs and circuits those of the characters read |
| TopStopWork.Advance | T22/Protocodes/TopStopWork.cs:640-671 | one dinucleotide extends the outputs and steps the circuits |
| TopStopWork.SkipControls | T22/Protocodes/TopStopWork.cs:597-601 | the first non-control character, with only control characters before it |
| TopStopWork.HandleDinuc | T22/Protocodes/TopStopWork.cs:645-671 | the glyph and letter written for a dinucleotide, and the circuit step |
| TopStopHeader.SplitHeader | T22/Protocodes/TopStopWork.cs:590-596 | the header and the text after it are together no longer than the input |
| TopStopHeader.SplitHeaderRest | T22/Protocodes/TopStopWork.cs:591-596 | what follows the header is a suffix of the input that does not start with '>' |
| TopStopHeader.SuffixOfRest | T22/Protocodes/TopStopWork.cs:591-596 | a suffix of a suffix is a suffix |
| TopStopHeader.SplitHeaderStart | T22/Protocodes/TopStopWork.cs:591-596 | there is a header exactly when the input starts with '>', and it keeps that '>' |
| TopStopHeader.SplitHeaderNoBreak | T22/Protocodes/TopStopWork.cs:591-596 | the header holds no line break |
| TopStopHeader.NoLineBreakConcat | T22/Protocodes/TopStopWork.cs:594 | pieces without line breaks concatenate to one without |
| Circuits.InitialIsValid | T22/Protocodes/TopStopWork.cs:307-318 | both circuits start NONE at -1 with no intervals, which meets the invariant |
| Circuits.NotAfterThenBefore | T22/Protocodes/TopStopWork.cs:628-673 | a state left at a position is one the next position can meet |
| Circuits.BeforeThenNotAfter | T22/Protocodes/TopStopWork.cs:628-673 | a state met at a position is not after it |
| Circuits.Finalize | T22/Protocodes/TopStopWork.cs:334-357 | an open circuit records `[start, pos)` and becomes NONE at -1; a closed one is unchanged; the invariant holds |
| Circuits.Open | T22/Protocodes/TopStopWork.cs:403-583 | a circuit opened at pos has that position and start and its records |
| Circuits.Move | T22/Protocodes/TopStopWork.cs:410-583 | a circuit moved to another strand keeps its start and records |
| Circuits.Drop | T22/Protocodes/TopStopWork.cs:379-387 | a dropped circuit is NONE and records nothing |
| Circuits.AfterFinalizeBoth | T22/Protocodes/TopStopWork.cs:358-362 | both circuits are closed, each recording its open interval |
| Circuits.Merged | T22/Protocodes/TopStopWork.cs:377-388 | the earlier-started circuit becomes BOTH and the other resets to NONE with no interval recorded |
| Circuits.AfterSecondCrossing | T22/Protocodes/TopStopWork.cs:436-450 | circuit 2 crossing the strand keeps the invariant, puts a circuit on the strand, and records at most one interval |
| Circuits.AfterFirstCrossing | T22/Protocodes/TopStopWork.cs:421-450 | circuit 1 crossing the strand keeps the invariant, puts a circuit on the strand, and records at most one interval per circuit |
| Circuits.AfterOneCoaxial | T22/Protocodes/TopStopWork.cs:400-508 | a single coaxial bond leaves a circuit on its strand and records at most one interval per circuit |
| Circuits.AfterBothCoaxial | T22/Protocodes/TopStopWork.cs:510-584 | both coaxial bonds leave some circuit open and record nothing |
| Circuits.Joined | T22/Protocodes/TopStopWork.cs:366-390 | an orthogonal bond joins two parallel circuits; otherwise nothing changes |
| Circuits.AfterCoaxial | T22/Protocodes/TopStopWork.cs:392-584 | no coaxial bond closes both circuits; a top or bottom bond leaves a circuit on its strand; at most one interval per circuit is recorded |
| Circuits.AfterBond | T22/Protocodes/TopStopWork.cs:364-585 | `processBond`: each circuit is NONE exactly when its start is -1, and the intervals stay ordered and non-empty. A bond with no coaxial bond closes both circuits, and each circuit still open after the join records `[start, pos)`. A bond with one coaxial bond leaves a circuit on that strand. Each circuit records at most one new interval. On parallel circuits an orthogonal bond drops the later-started one, which records nothing |
| Circuits.Tracker.constructor | T22/Protocodes/TopStopWork.cs:307-318 | the circuit variables start as the initial state |
| Circuits.Tracker.FinalizeCircuit1 | T22/Protocodes/TopStopWork.cs:334-345 | circuit 1 finalized at pos |
| Circuits.Tracker.FinalizeCircuit2 | T22/Protocodes/TopStopWork.cs:346-357 | circuit 2 finalized at pos |
| Circuits.Tracker.FinalizeCircuits | T22/Protocodes/TopStopWork.cs:358-362 | both circuits finalized at pos |
| Circuits.Tracker.ProcessBond | T22/Protocodes/TopStopWork.cs:364-585 | the new state is that of `processBond` for the bond's three tests |
| Circuits.Tracker.ProcessBondTests | T22/Protocodes/TopStopWork.cs:364-585 | the join block and then the coaxial blocks |
| Circuits.Tracker.Join | T22/Protocodes/TopStopWork.cs:366-390 | the join block |
| Circuits.Tracker.Coaxial | T22/Protocodes/TopStopWork.cs:392-584 | the coaxial blocks |
| Circuits.Tracker.OneCoaxial | T22/Protocodes/TopStopWork.cs:400-508 | the block for a single coaxial bond |
| Circuits.Tracker.FirstCrossing | T22/Protocodes/TopStopWork.cs:421-435 | circuit 1 on the other strand |
| Circuits.Tracker.SecondCrossing | T22/Protocodes/TopStopWork.cs:436-450 | circuit 2 on the other strand |
| Circuits.Tracker.BothCoaxial | T22/Protocodes/TopStopWork.cs:510-584 | the block for both coaxial bonds |
| TopStopHistogram.HistCounts | T22/Protocodes/TopStopWork.cs:693-720 | `Length2Count[len]` is the number of intervals of length len, and only lengths that occur are keys |
| TopStopHistogram.Lengths | T22/Protocodes/TopStopWork.cs:693-720 | one length end − start per interval |
| TopStopHistogram.SumRangeAgree | T22/Protocodes/TopStopWork.cs:693-720 | sums over agreeing histograms are equal |
| TopStopHistogram.SumTally | T22/Protocodes/TopStopWork.cs:697-703 | counting one more length adds one to the sum |
| TopStopHistogram.SumRangeEmpty | T22/Protocodes/TopStopWork.cs:693 | the empty histogram sums to 0 |
| TopStopHistogram.AllInConcat | T22/Protocodes/TopStopWork.cs:693-720 | lengths in range concatenate to lengths in range |
| TopStopHistogram.HistTotal | T22/Protocodes/TopStopWork.cs:693-720 | the counts sum to the number of lengths |
| TopStopHistogram.Histogram | T22/Protocodes/TopStopWork.cs:693-720 | the two loops give the histogram of circuit 1's lengths followed by circuit 2's |
| TopStopHistogram.CountLengths | T22/Protocodes/TopStopWork.cs:694-705 | one loop tallies each interval's length |
| TopStopHistogram.HistAppendStep | T22/Protocodes/TopStopWork.cs:697-703 | one more length is tallied |
| TopStopHistogram.HistogramTotal | T22/Protocodes/TopStopWork.cs:693-720 | the counts sum to `start1.Count` + `start2.Count` |
| TopStopHistogram.BothTotal | T22/Protocodes/TopStopWork.cs:693-720 | the counts over both lists sum to their lengths |
| TopStopHistogram.LengthsBounded | T22/Protocodes/TopStopWork.cs:693-720 | the recorded lengths lie between 1 and the sequence length |
| TopStopHistogram.IntervalsBounded | T22/Protocodes/TopStopWork.cs:339-352 | every recorded interval ends by the last end |
| TopStopScan.BothLetter | T22/Protocodes/TopStopWork.cs:883-907 | Y exactly when one interval holds the other, P otherwise |
| TopStopScan.ScanStep | T22/Protocodes/TopStopWork.cs:788-932 | the S fill exactly when both lists are done; otherwise each index moves by at most one |
| TopStopScan.ScanFrom | T22/Protocodes/TopStopWork.cs:780-934 | one letter per remaining position |
| TopStopScan.TopStopLetters | T22/Protocodes/TopStopWork.cs:766-934 | the TOPSTOP body has `topstopLength` letters when that is below 2^31, none when it is not positive, and every letter is a TOPSTOP letter |
| TopStopScan.Scan | T22/Protocodes/TopStopWork.cs:766-934 | the scan writes the TOPSTOP letters of the intervals |
| TopStopScan.ScanPosition | T22/Protocodes/TopStopWork.cs:788-932 | one position writes its letters and moves the indices |
| TopStopScan.ScanFromStep | T22/Protocodes/TopStopWork.cs:788-932 | the letters from a position are its own letter then those from the next |
| TopStopScan.ScanLetters | T22/Protocodes/TopStopWork.cs:780-934 | every letter written is a TOPSTOP letter |
| TopStopScan.IntervalsApart | T22/Protocodes/TopStopWork.cs:334-357 | the intervals the first pass records are in order and no two of them touch |
| TopStopScan.CoveredByCurrent | T22/Protocodes/TopStopWork.cs:776-779 | a position is covered exactly when it lies in the interval the index points at |
| TopStopScan.SortedAt | T22/Protocodes/TopStopWork.cs:776-779 | ordered intervals end before later ones start |
| TopStopScan.StepKeepsPlace | T22/Protocodes/TopStopWork.cs:776-932 | the indices still point at the first interval not gone past |
| TopStopScan.StepMovesFirst | T22/Protocodes/TopStopWork.cs:925-928 | index 1 moves past an interval ending here |
| TopStopScan.StepMovesSecond | T22/Protocodes/TopStopWork.cs:929-932 | index 2 moves past an interval ending here |
| TopStopScan.MovePlace | T22/Protocodes/TopStopWork.cs:925-932 | moving past an ending interval keeps the index in place |
| TopStopScan.PlainStepLetter | T22/Protocodes/TopStopWork.cs:880-922 | without a hand-over the letter counts the covering circuits |
| TopStopScan.NoneLeft | T22/Protocodes/TopStopWork.cs:835-841 | past the last interval nothing is covered |
| TopStopScan.ConsCounts | T22/Protocodes/TopStopWork.cs:780-934 | a counting letter before counting letters counts |
| TopStopScan.FillCounts | T22/Protocodes/TopStopWork.cs:835-841 | the S fill counts no circuit |
| TopStopScan.FillFrom | T22/Protocodes/TopStopWork.cs:835-841 | the fill case counts correctly |
| TopStopScan.CountsFrom | T22/Protocodes/TopStopWork.cs:780-934 | from any position in place the letters count the circuits |
| TopStopScan.CountedLetters | T22/Protocodes/TopStopWork.cs:780-934 | exactly `topstopLength` letters, and for intervals in order and apart, as the first pass records them, every letter but x says how many circuits cover its position: s none, i one, p or y two |
| TopStopScan.PlaceAtStart | T22/Protocodes/TopStopWork.cs:768 | both indices start in place |
| TopStopScan.NoHandover | T22/Protocodes/TopStopWork.cs:788-832 | with one list empty no x is written |
| TopStopScan.OneCircuitLetters | T22/Protocodes/TopStopWork.cs:780-934 | with one circuit, i exactly inside its intervals and s everywhere else |
| TopStopScan.TouchingIntervals | T22/Protocodes/TopStopWork.cs:862-878 | two touching intervals of one circuit, which the first pass never records, would give s at the shared position although it is covered |
| TopStopRun.Final | T22/Protocodes/TopStopWork.cs:589-682 | after the first pass and the last `finalizeCircuits(position)` both circuits are closed, their intervals are apart and none ends after `topstopLength` |
| TopStopRun.FinalIntervals | T22/Protocodes/TopStopWork.cs:334-682 | the intervals the first pass records on each circuit are in order, no two touch, and all end by `topstopLength` |
| TopStopRun.FinalHistogram | T22/Protocodes/TopStopWork.cs:589-720 | `Length2Count` over lengths 1 to `topstopLength` counts every interval of the first pass once |
| TopStopRun.FinalLetters | T22/Protocodes/TopStopWork.cs:589-934 | every TOPSTOP letter of the run but x counts the circuits the first pass found at its position |
| TopStopRun.FinalChains | T22/Protocodes/TopStopWork.cs:741-997 | the CHAINS file of a TOPSTOP file the scan wrote is that file with its letters translated, and they translate back |
| TopStopRun.RunIntervals | T22/Protocodes/TopStopWork.cs:273-943 | the intervals of a run are in order, apart and end by `topstopLength` |
| TopStopRun.RunHistogram | T22/Protocodes/TopStopWork.cs:273-943 | the histogram of a run counts each of its intervals once |
| TopStopRun.RunLetters | T22/Protocodes/TopStopWork.cs:273-943 | a run writes `topstopLength` TOPSTOP letters, each but x counting the circuits at its position |
| TopStopRun.RunChains | T22/Protocodes/TopStopWork.cs:273-943 | the CHAINS file of a run is its TOPSTOP file with the letters translated, and they translate back |
| TopStopRun.FirstPhase | T22/Protocodes/TopStopWork.cs:589-682 | the first pass gives the BONDS and BTYPE bodies and the closed circuits' interval lists of the non-control characters |
| TopStopRun.ProcessFile | T22/Protocodes/TopStopWork.cs:273-943 | the header, the first pass, the histogram, the TOPSTOP scan and the CHAINS translation in order, with all that the run's outcome means |
| TopStopChains.Translate | T22/Protocodes/TopStopWork.cs:985-997 | the translated body is no longer than the body |
| TopStopChains.TranslateConcat | T22/Protocodes/TopStopWork.cs:985-997 | translating distributes over concatenation, so the block size does not matter |
| TopStopChains.TableCoversTopStop | T22/Protocodes/TopStopWork.cs:957-962 | i, p, y, x and s translate to a, c, g, t and n |
| TopStopChains.Untranslate | T22/Protocodes/TopStopWork.cs:957-962 | the inverse table keeps the length |
| TopStopChains.UntranslateTranslate | T22/Protocodes/TopStopWork.cs:957-997 | TOPSTOP letters translate one for one and can be translated back |
| TopStopChains.TopStopText | T22/Protocodes/TopStopWork.cs:753-934 | the TOPSTOP file ends with the letters; a blank header is left out; otherwise the file starts with the header and its line break |
| TopStopChains.HeaderAndBody | T22/Protocodes/TopStopWork.cs:969-974 | the body is a suffix of the file, and there is a header only when the file starts with '>' |
| TopStopChains.ChainsText | T22/Protocodes/TopStopWork.cs:951-1002 | the CHAINS file is no longer than the TOPSTOP file plus one line break, and a file without a '>' header is translated whole |
| TopStopChains.GenerateChains | T22/Protocodes/TopStopWork.cs:951-1002 | the CHAINS text of the TOPSTOP text |
| TopStopChains.TranslateBody | T22/Protocodes/TopStopWork.cs:985-997 | the block loop appends the translation of the body |
| TopStopChains.BlockJoins | T22/Protocodes/TopStopWork.cs:986-997 | the translation of the blocks read so far extends block by block |
| TopStopChains.TranslateBlock | T22/Protocodes/TopStopWork.cs:989-996 | one block appends its translated characters |
| TopStopChains.BlankHeader | T22/Protocodes/TopStopWork.cs:976 | a header line is blank exactly when it is empty |
| TopStopChains.ChainsOfTopStop | T22/Protocodes/TopStopWork.cs:753-997 | the CHAINS file of a TOPSTOP file is the same header with the letters translated, and translates back |
| TopStopChains.LettersInTable | T22/Protocodes/TopStopWork.cs:957-962 | every TOPSTOP letter is in the table |
| TopStopChains.NoHeader | T22/Protocodes/TopStopWork.cs:753-997 | CHAINS of a TOPSTOP file without a header |
| TopStopChains.NoHeaderText | T22/Protocodes/TopStopWork.cs:753-997 | the same, for the empty header |
| TopStopChains.WithHeader | T22/Protocodes/TopStopWork.cs:753-997 | CHAINS of a TOPSTOP file with a header |
| LegitLetters.Letters | T32/T32_CPP/T32_CPP.cpp:34-42 | the kept characters are alphabetic and no more than the input |
| LegitLetters.LettersAppend | T32/T32_CPP/T32_CPP.cpp:26-43 | filtering distributes over concatenation, so the chunking does not matter |
| LegitLetters.LettersIdempotent | T32/T32_CPP/T32_CPP.cpp:34-42 | filtering twice is filtering once |
| LegitLetters.LettersCount | T32/T32_CPP/T32_CPP.cpp:34-42 | every letter keeps its number of occurrences and nothing else survives |
| LegitLetters.CreateFromLegitLetters | T32/T32_CPP/T32_CPP.cpp:12-52 | the chunked loop with its short last read fills the first `actual_size` cells with the alphabetic characters in order, `actual_size` being their number and at most the capacity |
| LegitLetters.ReadChunk | T32/T32_CPP/T32_CPP.cpp:33-42 | one chunk raises `actual_size` by its size, lowers it per dropped byte and appends its letters |
| LegitLetters.LettersStep | T32/T32_CPP/T32_CPP.cpp:34-42 | one more byte appends itself when it is a letter |
| LegitLetters.Capacity | T32/T32_CPP/T32_CPP.cpp:15-18 | the buffer capacity is the size of what follows the header, or the file size plus one when nothing follows it |
| LegitLetters.ProcessFile | T32/T32_CPP/T32_CPP.cpp:12-76 | the header is the concatenated '>' lines; the buffer is as large as what follows the header, or one cell larger than the input when nothing follows it; it starts with the letters of that rest |

## Left out
- File and folder I/O, file names, output formats (GenBank, csv, wiggle, summary), `summary_file_name`, the elements file and `GenerateElensum`: inputs are strings and outputs are sequences.
- Timing, progress reporting, the density and subdensity percentages (floating point), the GUI and the command line.
- `std::regex` and .NET regular expressions: the origin match, the YES match, `ReadFilterStatus` and the tandem match are written as predicates.
- The order of `unordered_map` and `Dictionary`: the model visits starts in increasing order, and the results it proves do not depend on the order.
- `operator[]` on a missing length inserting an empty level: `length2map_culled` is read only at lengths it holds.
- Short data: when the data after the header is shorter than `min_repeat_length`, the source copies past its end; the model takes the data whole and records no seed. The 8192-character read buffer and its `memmove` are modelled by their net effect on the full buffer.
- RepeatFinder.ProcessFile: requires a `min_repeat_length` of at least 1; the source divides the work by it and its behaviour below 1 is not modelled.
- `absolute_origin` is only carried; the elements positions computed from it are output formatting.
- Error.h is not part of this model: a `Fatal` stop or an exception is a `None` or `Fail` result.
- FilterStatus.h is not part of this model: the statuses are read by `ReadFilterStatus` and not used by the filters modelled, which follow `please_only_palindromes` and `please_only_tandems`.
- The commented-out variant of `is_tandem` and the palindrome-arm tandem statuses: they are not used by `process_file`.
- TopStopWork.FirstPass: requires input with a non-control character after the header; on input without one the source keeps reading forever.
- TopStopWork.FirstPass: the try/catch around the dictionary lookups is not modelled; it requires every dinucleotide with a bond to have a B type, which ReadConfig guarantees.
- Chars.ToLower: folds ASCII letters only; the culture-aware `ToLower` of .NET also folds other letters, and that is not modelled.
- Chars.UpperString: folds ASCII letters only; the culture-aware `ToUpper` of .NET also folds other letters and may depend on the culture, and that is not modelled.
- Chars.LowerString: folds ASCII letters only, like Chars.ToLower; non-ASCII and culture-dependent folding is not modelled.
- Bonds.ParseBond: `Enum.TryParse` also accepts numbers, comma lists and surrounding white space; only names are modelled.
- TopStopScan.Scan: the `pos % percentReportEach` progress test is left out; it only reports progress.
- TopStopRun.ProcessFile: the count of TOPSTOP letters and what they mean are stated for a `topstopLength` below 2^31 only, because the final S fill casts the remaining count to `int` (`TopStopPrinter.ToInt32`). It requires what TopStopWork.FirstPass requires. The header lines the source writes at the top of the BONDS and BTYPE files are output formatting and are not part of the outcome.
