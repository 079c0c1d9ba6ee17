/**
 * The extension phase of process_file in T24: every start of the previous
 * length is read again one character longer, directly from the full
 * buffer, regrouped by content and filtered by copy number, until a length
 * is left with no start at all.
 */
module Extension {
  import opened Grouping

  /** The starts among ks whose window of length len lies before the last character of fb. */
  predicate Fits(fb: string, p: nat, len: nat) {
    p + len < |fb|
  }

  /** The starts among ks whose window of length len holds s. */
  function StartsOf(fb: string, ks: set<nat>, len: nat, s: string): set<nat> {
    set p | p in ks && Fits(fb, p, len) && fb[p..p + len] == s
  }

  /**
   * seq2positions for length len after the starts of level below n. The
   * source visits the starts in the order of its hash map; the result does
   * not depend on that order, and the model visits them in increasing order.
   */
  function GroupedUpTo(fb: string, level: Level, len: nat, n: nat): Groups {
    if n == 0 then map[]
    else
      var g := GroupedUpTo(fb, level, len, n - 1);
      var p := n - 1;
      if p in level && Fits(fb, p, len) then AddPosition(g, fb[p..p + len], p) else g
  }

  /** seq2positions for length len, built from the starts of level. */
  function Grouped(fb: string, level: Level, len: nat): Groups {
    GroupedUpTo(fb, level, len, |fb|)
  }

  /** A start is listed under s exactly when it is a start of level whose window fits and holds s. */
  lemma {:induction false} GroupedMembers(fb: string, level: Level, len: nat, n: nat, s: string, p: nat)
    ensures (s in GroupedUpTo(fb, level, len, n) && p in GroupedUpTo(fb, level, len, n)[s])
        <==> (p < n && p in level && Fits(fb, p, len) && fb[p..p + len] == s)
    decreases n
  {
    if n > 0 {
      GroupedMembers(fb, level, len, n - 1, s, p);
    }
  }

  /** No start is listed under two contents. */
  lemma GroupedDisjoint(fb: string, level: Level, len: nat)
    ensures Disjoint(Grouped(fb, level, len))
  {
    var g := Grouped(fb, level, len);
    forall s, t, p | s in g && t in g && p in g[s] && p in g[t] ensures s == t {
      GroupedMembers(fb, level, len, |fb|, s, p);
      GroupedMembers(fb, level, len, |fb|, t, p);
    }
  }

  /** The copy number of a content is the number of fitting starts that hold it. */
  lemma GroupedStarts(fb: string, level: Level, len: nat, s: string)
    requires s in Grouped(fb, level, len)
    ensures Grouped(fb, level, len)[s] == StartsOf(fb, level.Keys, len, s)
  {
    var g := Grouped(fb, level, len);
    forall p | p in g[s] ensures p in StartsOf(fb, level.Keys, len, s) {
      GroupedMembers(fb, level, len, |fb|, s, p);
    }
    forall p | p in StartsOf(fb, level.Keys, len, s) ensures p in g[s] {
      GroupedMembers(fb, level, len, |fb|, s, p);
    }
  }

  /** Start p is kept at length len: it fits, and its window's content occurs at c or more starts. */
  predicate Kept(fb: string, level: Level, len: nat, c: nat, p: nat) {
    p in level && Fits(fb, p, len) && CopyNumber(Grouped(fb, level, len), fb[p..p + len]) >= c
  }

  /** The starts below n that are kept at length len, with their contents. */
  function NextUpTo(fb: string, level: Level, len: nat, c: nat, n: nat): Level {
    if n == 0 then map[]
    else
      var r := NextUpTo(fb, level, len, c, n - 1);
      if Kept(fb, level, len, c, n - 1) then r[n - 1 := fb[n - 1..n - 1 + len]] else r
  }

  /** start2seq for length len from the one for the previous length. */
  function NextLevel(fb: string, level: Level, len: nat, c: nat): Level {
    NextUpTo(fb, level, len, c, |fb|)
  }

  lemma {:induction false} NextUpToMembers(fb: string, level: Level, len: nat, c: nat, n: nat, p: nat)
    ensures p in NextUpTo(fb, level, len, c, n) <==> p < n && Kept(fb, level, len, c, p)
    ensures p in NextUpTo(fb, level, len, c, n) ==> NextUpTo(fb, level, len, c, n)[p] == fb[p..p + len]
    decreases n
  {
    if n > 0 {
      NextUpToMembers(fb, level, len, c, n - 1, p);
    }
  }

  /**
   * A start is kept at length len exactly when it was a start one shorter,
   * its window fits and the window's content occurs at c or more of the
   * fitting starts; what is stored is the window read from the full buffer.
   */
  lemma NextMembers(fb: string, level: Level, len: nat, c: nat, p: nat)
    ensures p in NextLevel(fb, level, len, c)
        <==> p in level && Fits(fb, p, len) && |StartsOf(fb, level.Keys, len, fb[p..p + len])| >= c
    ensures p in NextLevel(fb, level, len, c) ==> NextLevel(fb, level, len, c)[p] == fb[p..p + len]
  {
    NextUpToMembers(fb, level, len, c, |fb|, p);
    if p in level && Fits(fb, p, len) {
      var s := fb[p..p + len];
      GroupedMembers(fb, level, len, |fb|, s, p);
      GroupedStarts(fb, level, len, s);
    }
  }

  /** Grouping by content, dropping the rare contents and flattening again gives the next level. */
  lemma FlatIsNext(fb: string, level: Level, len: nat, c: nat)
    ensures Disjoint(Frequent(Grouped(fb, level, len), c))
    ensures FlatLevel(Frequent(Grouped(fb, level, len), c)) == NextLevel(fb, level, len, c)
  {
    var g := Grouped(fb, level, len);
    GroupedDisjoint(fb, level, len);
    FrequentDisjoint(g, c);
    var flat := FlatLevel(Frequent(g, c));
    var next := NextLevel(fb, level, len, c);
    forall p ensures p in flat <==> p in next
             ensures p in next ==> flat[p] == next[p] {
      FlatMember(fb, level, len, c, p);
    }
  }

  /** One start: it is in start2seq exactly when it is in the next level, with the same content. */
  lemma FlatMember(fb: string, level: Level, len: nat, c: nat, p: nat)
    requires Disjoint(Frequent(Grouped(fb, level, len), c))
    ensures p in FlatLevel(Frequent(Grouped(fb, level, len), c)) <==> p in NextLevel(fb, level, len, c)
    ensures p in NextLevel(fb, level, len, c) ==>
              FlatLevel(Frequent(Grouped(fb, level, len), c))[p] == NextLevel(fb, level, len, c)[p]
  {
    var flat := FlatLevel(Frequent(Grouped(fb, level, len), c));
    NextUpToMembers(fb, level, len, c, |fb|, p);
    if p in flat {
      GroupedMembers(fb, level, len, |fb|, flat[p], p);
    }
    if p in NextLevel(fb, level, len, c) {
      GroupedMembers(fb, level, len, |fb|, fb[p..p + len], p);
    }
  }

  /** The starts of a level whose content is s. */
  function CopiesIn(level: Level, s: string): set<nat> {
    set p | p in level && level[p] == s
  }

  /** Every content kept at length len sits at c or more starts of that length. */
  lemma NextCopies(fb: string, level: Level, len: nat, c: nat, p: nat)
    requires p in NextLevel(fb, level, len, c)
    ensures |CopiesIn(NextLevel(fb, level, len, c), NextLevel(fb, level, len, c)[p])| >= c
  {
    var next := NextLevel(fb, level, len, c);
    NextMembers(fb, level, len, c, p);
    var s := fb[p..p + len];
    forall q | q in StartsOf(fb, level.Keys, len, s) ensures q in CopiesIn(next, s) {
      NextMembers(fb, level, len, c, q);
    }
    forall q | q in CopiesIn(next, s) ensures q in StartsOf(fb, level.Keys, len, s) {
      NextMembers(fb, level, len, c, q);
    }
    assert CopiesIn(next, s) == StartsOf(fb, level.Keys, len, s);
  }

  /** A level that is not empty is below the length of the full buffer. */
  lemma NextBelowBuffer(fb: string, level: Level, len: nat, c: nat)
    requires NextLevel(fb, level, len, c) != map[]
    ensures len < |fb|
  {
    var next := NextLevel(fb, level, len, c);
    var p :| p in next;
    NextMembers(fb, level, len, c, p);
  }

  /** The level of length k is the non-empty next level of the one before it. */
  ghost predicate Grown(fb: string, levels: map<nat, Level>, k: nat, c: nat) {
    && k in levels && k - 1 in levels
    && levels[k] == NextLevel(fb, levels[k - 1], k, c)
    && levels[k] != map[]
  }

  /**
   * length2map and seq_length_max as the extension loop leaves them, from
   * the start2seq of length m: one level for every length m through
   * maxLength, each the next level of the one before it and none of them
   * empty past the first, and the level after maxLength empty.
   */
  ghost predicate Extended(fb: string, seedLevel: Level, m: nat, c: nat, levels: map<nat, Level>, maxLength: nat) {
    && m <= maxLength
    && (forall k :: k in levels <==> m <= k <= maxLength)
    && levels[m] == seedLevel
    && (forall k :: m < k <= maxLength ==> Grown(fb, levels, k, c))
    && NextLevel(fb, levels[maxLength], maxLength + 1, c) == map[]
  }

  /** The loop has one outcome: the levels and the maximum length are determined by the input. */
  lemma ExtendedUnique(fb: string, seedLevel: Level, m: nat, c: nat,
                       levels: map<nat, Level>, maxLength: nat, levels': map<nat, Level>, maxLength': nat)
    requires Extended(fb, seedLevel, m, c, levels, maxLength)
    requires Extended(fb, seedLevel, m, c, levels', maxLength')
    ensures maxLength == maxLength' && levels == levels'
  {
    if maxLength < maxLength' {
      Agree(fb, seedLevel, m, c, levels, maxLength, levels', maxLength', maxLength);
      ghost var grown := Grown(fb, levels', maxLength + 1, c);
    } else if maxLength' < maxLength {
      Agree(fb, seedLevel, m, c, levels', maxLength', levels, maxLength, maxLength');
      ghost var grown := Grown(fb, levels, maxLength' + 1, c);
    } else {
      forall k | k in levels ensures levels[k] == levels'[k] {
        Agree(fb, seedLevel, m, c, levels, maxLength, levels', maxLength', k);
      }
    }
  }

  lemma {:induction false} Agree(fb: string, seedLevel: Level, m: nat, c: nat,
                                 levels: map<nat, Level>, maxLength: nat, levels': map<nat, Level>, maxLength': nat,
                                 k: nat)
    requires Extended(fb, seedLevel, m, c, levels, maxLength)
    requires Extended(fb, seedLevel, m, c, levels', maxLength')
    requires m <= k <= maxLength && k <= maxLength'
    ensures levels[k] == levels'[k]
    decreases k
  {
    if k > m {
      Agree(fb, seedLevel, m, c, levels, maxLength, levels', maxLength', k - 1);
      assert Grown(fb, levels, k, c) && Grown(fb, levels', k, c);
    }
  }

  /**
   * What the extension promises about every length k past the first: its
   * starts are starts of length k - 1 whose window fits, each stores the
   * window of the full buffer, and each content sits at c or more starts.
   */
  lemma ExtendedLevel(fb: string, seedLevel: Level, m: nat, c: nat, levels: map<nat, Level>, maxLength: nat,
                      k: nat, p: nat)
    requires Extended(fb, seedLevel, m, c, levels, maxLength)
    requires m < k <= maxLength && p in levels[k]
    ensures p in levels[k - 1]
    ensures Fits(fb, p, k)
    ensures levels[k][p] == fb[p..p + k]
    ensures |CopiesIn(levels[k], levels[k][p])| >= c
  {
    assert Grown(fb, levels, k, c);
    NextMembers(fb, levels[k - 1], k, c, p);
    NextCopies(fb, levels[k - 1], k, c, p);
  }

  /** A start too close to the end of the buffer is dropped. */
  lemma ExtendedDrops(fb: string, seedLevel: Level, m: nat, c: nat, levels: map<nat, Level>, maxLength: nat,
                      k: nat, p: nat)
    requires Extended(fb, seedLevel, m, c, levels, maxLength)
    requires m < k <= maxLength && !Fits(fb, p, k)
    ensures p !in levels[k]
  {
    assert Grown(fb, levels, k, c);
    NextMembers(fb, levels[k - 1], k, c, p);
  }

  /** The loop ends before the length of the full buffer. */
  lemma ExtendedBelowBuffer(fb: string, seedLevel: Level, m: nat, c: nat, levels: map<nat, Level>, maxLength: nat)
    requires Extended(fb, seedLevel, m, c, levels, maxLength)
    requires maxLength > m
    ensures maxLength < |fb|
  {
    assert Grown(fb, levels, maxLength, c);
    NextBelowBuffer(fb, levels[maxLength - 1], maxLength, c);
  }

  /** The regrouping of start2seq at length len: the loop that fills seq2positions. */
  method GroupStarts(fb: string, level: Level, len: nat) returns (g: Groups)
    ensures g == Grouped(fb, level, len)
  {
    g := map[];
    var p := 0;
    while p < |fb|
      invariant p <= |fb|
      invariant g == GroupedUpTo(fb, level, len, p)
    {
      if p in level && Fits(fb, p, len) {
        g := AddPosition(g, fb[p..p + len], p);
      }
      p := p + 1;
    }
  }

  /** No content survives the copy filter exactly when the next level is empty. */
  lemma NothingFrequent(fb: string, level: Level, len: nat, c: nat)
    ensures Frequent(Grouped(fb, level, len), c) == map[] <==> NextLevel(fb, level, len, c) == map[]
  {
    var kept := Frequent(Grouped(fb, level, len), c);
    FlatIsNext(fb, level, len, c);
    if kept != map[] {
      var s :| s in kept;
      GroupedNonEmpty(fb, level, len, |fb|, s);
      var p :| p in kept[s];
      assert p in FlatLevel(kept);
    }
  }

  /** Every content in seq2positions has a start. */
  lemma {:induction false} GroupedNonEmpty(fb: string, level: Level, len: nat, n: nat, s: string)
    requires s in GroupedUpTo(fb, level, len, n)
    ensures GroupedUpTo(fb, level, len, n)[s] != {}
    decreases n
  {
    var g := GroupedUpTo(fb, level, len, n - 1);
    if s in g {
      GroupedNonEmpty(fb, level, len, n - 1, s);
    }
  }

  /**
   * One pass of the for loop over seq_length: group the starts of the
   * previous length, drop the rare contents and, unless nothing is left,
   * flatten the rest into the next start2seq.
   */
  method ExtendOnce(fb: string, start2seq: Level, len: nat, c: nat) returns (next: Level, done: bool)
    ensures done <==> NextLevel(fb, start2seq, len, c) == map[]
    ensures !done ==> next == NextLevel(fb, start2seq, len, c)
  {
    FlatIsNext(fb, start2seq, len, c);
    NothingFrequent(fb, start2seq, len, c);
    var seq2positions := GroupStarts(fb, start2seq, len);
    seq2positions := CopyFilter(seq2positions, c);
    next := map[];
    if seq2positions == map[] {
      return next, true;
    }
    next := Flatten(seq2positions);
    done := false;
  }

  /**
   * The extension loop from the start2seq of length m: it returns
   * length2map and seq_length_max.
   */
  method Extend(fb: string, seedLevel: Level, m: nat, c: nat) returns (levels: map<nat, Level>, maxLength: nat)
    ensures Extended(fb, seedLevel, m, c, levels, maxLength)
  {
    levels := map[m := seedLevel];
    var start2seq := seedLevel;
    maxLength := m;
    var len := m + 1;
    while true
      invariant len == maxLength + 1 && m <= maxLength
      invariant forall k :: k in levels <==> m <= k <= maxLength
      invariant levels[m] == seedLevel && start2seq == levels[maxLength]
      invariant forall k :: m < k <= maxLength ==> Grown(fb, levels, k, c)
      decreases |fb| - maxLength
    {
      var next, done := ExtendOnce(fb, start2seq, len, c);
      if done {
        break;
      }
      NextBelowBuffer(fb, start2seq, len, c);
      var before := levels;
      levels := levels[len := next];
      forall k | m < k < len ensures Grown(fb, levels, k, c) {
        assert Grown(fb, before, k, c);
      }
      assert Grown(fb, levels, len, c);
      start2seq := next;
      maxLength := len;
      len := len + 1;
    }
  }
}
