/**
 * The first phase of process_file in T24: the data after the FASTA header
 * is read once, control characters are dropped into the full buffer, and
 * every window of m characters that holds no N letter is recorded under
 * its content. The buffer refills of the source only cut the data into
 * chunks; their net effect is one character at a time, which is what is
 * modelled here.
 */
module Seeding {
  import opened Chars
  import opened Grouping
  import T24Config

  /** is_N_letter of the configuration whose letter set is letters. */
  predicate IsN(letters: set<char>, c: char) {
    T24Config.IsNLetter(letters, c)
  }

  /** The characters of s that are not control characters, in order. */
  function NonControl(s: string): (r: string)
    ensures |r| <= |s|
    ensures forall k :: 0 <= k < |r| ==> !IsCntrl(r[k])
  {
    if |s| == 0 then []
    else NonControl(s[..|s| - 1]) + (if IsCntrl(s[|s| - 1]) then [] else [s[|s| - 1]])
  }

  /**
   * The full buffer: the first m characters as they are, then the
   * characters after them with the control characters removed. Data shorter
   * than m is taken whole (the source reads past its end there).
   */
  function FullBuffer(data: string, m: nat): (r: string)
    ensures |r| <= |data|
    ensures |data| >= m ==> |r| >= m && r[..m] == data[..m]
    ensures |data| >= m ==> forall k :: m <= k < |r| ==> !IsCntrl(r[k])
    ensures (forall k :: 0 <= k < |data| ==> !IsCntrl(data[k])) ==> r == data
  {
    if |data| < m then data
    else
      NonControlKeeps(data[m..]);
      data[..m] + NonControl(data[m..])
  }

  /** A text without control characters passes the filter whole. */
  lemma {:induction false} NonControlKeeps(s: string)
    ensures (forall k :: 0 <= k < |s| ==> !IsCntrl(s[k])) ==> NonControl(s) == s
  {
    if |s| > 0 {
      NonControlKeeps(s[..|s| - 1]);
    }
  }

  /** The index of the last N letter among the first n characters of fb, or -1. */
  function LastN(fb: string, letters: set<char>, n: nat): (r: int)
    requires n <= |fb|
    ensures -1 <= r < n
    ensures r >= 0 ==> IsN(letters, fb[r])
    ensures forall k :: r < k < n ==> !IsN(letters, fb[k])
  {
    if n == 0 then -1
    else if IsN(letters, fb[n - 1]) then n - 1
    else LastN(fb, letters, n - 1)
  }

  /**
   * The window at position p is recorded: its check letter fb[p + m] is in
   * the buffer and none of fb[p + 1], ..., fb[p + m] is an N letter.
   */
  predicate Qualifies(fb: string, m: nat, letters: set<char>, p: nat) {
    && p + m < |fb|
    && !IsN(letters, fb[p + m])
    && forall k :: p < k <= p + m ==> !IsN(letters, fb[k])
  }

  /** The content recorded at position p: the m characters ending at its check letter. */
  function SeedContent(fb: string, m: nat, p: nat): (r: string)
    requires p + m < |fb|
    ensures |r| == m
  {
    fb[p + 1..p + m + 1]
  }

  /** seq2positions after the windows at positions below n. */
  function Seeds(fb: string, m: nat, letters: set<char>, n: nat): Groups
    requires n + m <= |fb|
  {
    if n == 0 then map[]
    else
      var g := Seeds(fb, m, letters, n - 1);
      if Qualifies(fb, m, letters, n - 1) then AddPosition(g, SeedContent(fb, m, n - 1), n - 1) else g
  }

  /** seq2positions at the end of the scan. */
  function AllSeeds(fb: string, m: nat, letters: set<char>): Groups {
    if |fb| <= m then map[] else Seeds(fb, m, letters, |fb| - m)
  }

  /** The number of characters of fb from index m up to n that are not N letters. */
  function Meaningful(fb: string, letters: set<char>, m: nat, n: nat): (r: nat)
    requires n <= |fb|
    ensures r <= (if n < m then 0 else n - m)
  {
    if n <= m then 0
    else Meaningful(fb, letters, m, n - 1) + (if IsN(letters, fb[n - 1]) then 0 else 1)
  }

  /** Position p is recorded under s exactly when its window qualifies and holds s. */
  lemma {:induction false} SeedsMembers(fb: string, m: nat, letters: set<char>, n: nat, s: string, p: nat)
    requires n + m <= |fb|
    ensures (s in Seeds(fb, m, letters, n) && p in Seeds(fb, m, letters, n)[s])
        <==> (p < n && Qualifies(fb, m, letters, p) && SeedContent(fb, m, p) == s)
    decreases n
  {
    if n > 0 {
      SeedsMembers(fb, m, letters, n - 1, s, p);
    }
  }

  /** Every recorded content has at least one position. */
  lemma {:induction false} SeedsNonEmpty(fb: string, m: nat, letters: set<char>, n: nat, s: string)
    requires n + m <= |fb|
    requires s in Seeds(fb, m, letters, n)
    ensures Seeds(fb, m, letters, n)[s] != {}
    decreases n
  {
    var g := Seeds(fb, m, letters, n - 1);
    if s in g {
      SeedsNonEmpty(fb, m, letters, n - 1, s);
    }
  }

  /** No position is recorded under two contents. */
  lemma SeedsDisjoint(fb: string, m: nat, letters: set<char>)
    ensures Disjoint(AllSeeds(fb, m, letters))
  {
    if |fb| > m {
      forall s, t, p | s in AllSeeds(fb, m, letters) && t in AllSeeds(fb, m, letters)
          && p in AllSeeds(fb, m, letters)[s] && p in AllSeeds(fb, m, letters)[t]
        ensures s == t
      {
        SeedsMembers(fb, m, letters, |fb| - m, s, p);
        SeedsMembers(fb, m, letters, |fb| - m, t, p);
      }
    }
  }

  /** start2seq for length m: the recorded windows whose content was seen at least c times. */
  function SeedLevel(fb: string, m: nat, letters: set<char>, c: nat): Level {
    SeedsDisjoint(fb, m, letters);
    FrequentDisjoint(AllSeeds(fb, m, letters), c);
    FlatLevel(Frequent(AllSeeds(fb, m, letters), c))
  }

  /**
   * The starts of length m: a position is one exactly when its window
   * qualifies and its content was recorded at least c times; what is stored
   * there is the window's content, one to the right of the start.
   */
  lemma SeedLevelMembers(fb: string, m: nat, letters: set<char>, c: nat, p: nat)
    ensures p in SeedLevel(fb, m, letters, c)
        <==> && Qualifies(fb, m, letters, p)
             && SeedContent(fb, m, p) in AllSeeds(fb, m, letters)
             && |AllSeeds(fb, m, letters)[SeedContent(fb, m, p)]| >= c
    ensures p in SeedLevel(fb, m, letters, c) ==> SeedLevel(fb, m, letters, c)[p] == SeedContent(fb, m, p)
  {
    var g := AllSeeds(fb, m, letters);
    if |fb| > m {
      var n := |fb| - m;
      if p in SeedLevel(fb, m, letters, c) {
        SeedsMembers(fb, m, letters, n, SeedLevel(fb, m, letters, c)[p], p);
      }
      if Qualifies(fb, m, letters, p) {
        SeedsMembers(fb, m, letters, n, SeedContent(fb, m, p), p);
      }
    }
  }

  /** The copy number of a content is the number of qualifying windows that hold it. */
  lemma SeedCopies(fb: string, m: nat, letters: set<char>, s: string)
    requires s in AllSeeds(fb, m, letters)
    ensures AllSeeds(fb, m, letters)[s]
         == set p | 0 <= p < |fb| - m && Qualifies(fb, m, letters, p) && SeedContent(fb, m, p) == s
  {
    var n := |fb| - m;
    forall p | p in AllSeeds(fb, m, letters)[s]
      ensures p < n && Qualifies(fb, m, letters, p) && SeedContent(fb, m, p) == s
    {
      SeedsMembers(fb, m, letters, n, s, p);
    }
    forall p: nat | p < n && Qualifies(fb, m, letters, p) && SeedContent(fb, m, p) == s
      ensures p in AllSeeds(fb, m, letters)[s]
    {
      SeedsMembers(fb, m, letters, n, s, p);
    }
  }

  /** A window and its content only read the buffer up to the check letter. */
  lemma {:induction false} SeedsGrow(fb: string, c: char, m: nat, letters: set<char>, n: nat)
    requires n + m <= |fb|
    ensures Seeds(fb + [c], m, letters, n) == Seeds(fb, m, letters, n)
    decreases n
  {
    if n > 0 {
      SeedsGrow(fb, c, m, letters, n - 1);
      var p := n - 1;
      assert (fb + [c])[p + 1..p + m + 1] == fb[p + 1..p + m + 1];
      assert forall k :: 0 <= k < |fb| ==> (fb + [c])[k] == fb[k];
      assert Qualifies(fb + [c], m, letters, p) == Qualifies(fb, m, letters, p);
    }
  }

  lemma {:induction false} LastNGrow(fb: string, c: char, letters: set<char>, n: nat)
    requires n <= |fb|
    ensures LastN(fb + [c], letters, n) == LastN(fb, letters, n)
    decreases n
  {
    if n > 0 {
      LastNGrow(fb, c, letters, n - 1);
    }
  }

  lemma {:induction false} MeaningfulGrow(fb: string, c: char, letters: set<char>, m: nat, n: nat)
    requires n <= |fb|
    ensures Meaningful(fb + [c], letters, m, n) == Meaningful(fb, letters, m, n)
    decreases n
  {
    if n > m {
      MeaningfulGrow(fb, c, letters, m, n - 1);
    }
  }

  /**
   * The test the scan makes on the last N position: the window at p is
   * recorded exactly when its check letter is not an N letter and the last
   * N letter up to it lies at least m before it.
   */
  lemma WindowRule(fb: string, m: nat, letters: set<char>, p: nat)
    requires p + m < |fb|
    ensures Qualifies(fb, m, letters, p)
        <==> !IsN(letters, fb[p + m]) && (p + m) - LastN(fb, letters, p + m + 1) >= m
  {
  }

  /** Removing control characters distributes over concatenation. */
  lemma {:induction false} NonControlAppend(a: string, b: string)
    ensures NonControl(a + b) == NonControl(a) + NonControl(b)
    decreases |b|
  {
    if |b| == 0 {
      assert a + b == a;
    } else {
      var b' := b[..|b| - 1];
      assert (a + b)[..|a + b| - 1] == a + b';
      NonControlAppend(a, b');
    }
  }

  /**
   * A control character after the first m neither enters the full buffer
   * nor moves any later character, so it does not advance the position.
   */
  lemma ControlSkipped(data: string, m: nat, i: nat)
    requires m <= i < |data| && IsCntrl(data[i])
    ensures FullBuffer(data[..i] + data[i + 1..], m) == FullBuffer(data, m)
  {
    var d := data[..i] + data[i + 1..];
    assert d[..m] == data[..m];
    assert d[m..] == data[m..i] + data[i + 1..];
    assert data[m..] == data[m..i] + ([data[i]] + data[i + 1..]);
    NonControlAppend(data[m..i], data[i + 1..]);
    NonControlAppend(data[m..i], [data[i]] + data[i + 1..]);
    NonControlAppend([data[i]], data[i + 1..]);
    assert NonControl([data[i]]) == [] by {
      assert [data[i]][..0] == [];
    }
  }

  /** One position of the scan, alone. */
  lemma ScanStep(fb: string, c: char, m: nat, letters: set<char>, position: nat)
    requires position + m == |fb|
    ensures Seeds(fb + [c], m, letters, position + 1)
        == if Qualifies(fb + [c], m, letters, position)
           then AddPosition(Seeds(fb, m, letters, position), (fb + [c])[position + 1..], position)
           else Seeds(fb, m, letters, position)
  {
    SeedsGrow(fb, c, m, letters, position);
    assert (fb + [c])[position + 1..position + m + 1] == (fb + [c])[position + 1..];
  }

  /** The full buffer gains the next character of the data unless it is a control character. */
  lemma NonControlStep(data: string, m: nat, x: nat)
    requires m <= x < |data|
    ensures NonControl(data[m..x + 1]) == NonControl(data[m..x]) + (if IsCntrl(data[x]) then [] else [data[x]])
  {
    assert data[m..x + 1][..x - m] == data[m..x];
  }

  /** The initial scan of the first m characters for the last N letter. */
  method InitialLastN(fb: string, m: nat, letters: set<char>) returns (lastN: int)
    requires m <= |fb|
    ensures lastN == LastN(fb, letters, m)
  {
    lastN := -1;
    var i := m - 1;
    while i >= 0
      invariant -1 <= i < m
      invariant forall k :: i < k < m ==> !IsN(letters, fb[k])
    {
      if IsN(letters, fb[i]) {
        lastN := i;
        return;
      }
      i := i - 1;
    }
  }

  /** The counters and seq2positions that belong to the full buffer fb. */
  predicate BufferState(fb: string, m: nat, letters: set<char>,
                        seeds: Groups, meaningful: nat, lastN: int, position: nat) {
    && |fb| == position + m
    && lastN == LastN(fb, letters, |fb|)
    && seeds == Seeds(fb, m, letters, position)
    && meaningful == Meaningful(fb, letters, m, |fb|)
  }

  /** What the scan has built after the first x characters of the data. */
  predicate Scanned(data: string, m: nat, letters: set<char>, x: nat,
                    fb: string, seeds: Groups, meaningful: nat, controls: nat, lastN: int, position: nat) {
    && m <= x <= |data|
    && fb == data[..m] + NonControl(data[m..x])
    && |fb| + controls == x
    && BufferState(fb, m, letters, seeds, meaningful, lastN, position)
  }

  /** The loop body for a check letter that is not a control character. */
  method ScanLetter(fb: string, m: nat, letters: set<char>, c: char,
                    seeds: Groups, meaningful: nat, lastN: int, position: nat)
      returns (seeds': Groups, meaningful': nat, lastN': int)
    requires BufferState(fb, m, letters, seeds, meaningful, lastN, position)
    ensures BufferState(fb + [c], m, letters, seeds', meaningful', lastN', position + 1)
  {
    seeds', meaningful', lastN' := seeds, meaningful, lastN;
    BufferStep(fb, m, letters, c, seeds, meaningful, lastN, position);
    var fb' := fb + [c];
    if IsN(letters, c) {
      lastN' := position + m;
      return;
    }
    meaningful' := meaningful + 1;
    if position + m - lastN < m {
      return;
    }
    seeds' := AddPosition(seeds, fb'[|fb'| - m..], position);
  }

  /** The counters and seq2positions after one more character that is not a control character. */
  lemma BufferStep(fb: string, m: nat, letters: set<char>, c: char,
                   seeds: Groups, meaningful: nat, lastN: int, position: nat)
    requires BufferState(fb, m, letters, seeds, meaningful, lastN, position)
    ensures BufferState(fb + [c], m, letters,
                        if !IsN(letters, c) && position + m - lastN >= m
                        then AddPosition(seeds, (fb + [c])[position + 1..], position) else seeds,
                        meaningful + (if IsN(letters, c) then 0 else 1),
                        if IsN(letters, c) then position + m else lastN,
                        position + 1)
  {
    LastNAppend(fb, c, letters);
    MeaningfulAppend(fb, c, letters, m);
    SeedsAppend(fb, c, m, letters, position);
  }

  /** The last N position after one more character. */
  lemma LastNAppend(fb: string, c: char, letters: set<char>)
    ensures LastN(fb + [c], letters, |fb| + 1) == if IsN(letters, c) then |fb| else LastN(fb, letters, |fb|)
  {
    LastNGrow(fb, c, letters, |fb|);
    assert (fb + [c])[|fb|] == c;
  }

  /** The count of meaningful letters after one more character. */
  lemma MeaningfulAppend(fb: string, c: char, letters: set<char>, m: nat)
    requires m <= |fb|
    ensures Meaningful(fb + [c], letters, m, |fb| + 1) == Meaningful(fb, letters, m, |fb|) + (if IsN(letters, c) then 0 else 1)
  {
    MeaningfulGrow(fb, c, letters, m, |fb|);
    assert (fb + [c])[|fb|] == c;
  }

  /** seq2positions after one more character: the new window is recorded by the last N test. */
  lemma SeedsAppend(fb: string, c: char, m: nat, letters: set<char>, position: nat)
    requires position + m == |fb|
    ensures Seeds(fb + [c], m, letters, position + 1)
        == if !IsN(letters, c) && position + m - LastN(fb, letters, |fb|) >= m
           then AddPosition(Seeds(fb, m, letters, position), (fb + [c])[position + 1..], position)
           else Seeds(fb, m, letters, position)
  {
    ScanStep(fb, c, m, letters, position);
    QualifiesAppend(fb, c, m, letters, position);
  }

  /** The window that ends at the new character qualifies by the last N test. */
  lemma QualifiesAppend(fb: string, c: char, m: nat, letters: set<char>, position: nat)
    requires position + m == |fb|
    ensures Qualifies(fb + [c], m, letters, position)
        <==> !IsN(letters, c) && position + m - LastN(fb, letters, |fb|) >= m
  {
    WindowRule(fb + [c], m, letters, position);
    LastNAppend(fb, c, letters);
    assert (fb + [c])[position + m] == c;
  }

  /** One pass of the loop body: the check letter data[x]. */
  method ScanChar(data: string, m: nat, letters: set<char>, x: nat,
                  fb: string, seeds: Groups, meaningful: nat, controls: nat, lastN: int, position: nat)
      returns (fb': string, seeds': Groups, meaningful': nat, controls': nat, lastN': int, position': nat)
    requires x < |data|
    requires Scanned(data, m, letters, x, fb, seeds, meaningful, controls, lastN, position)
    ensures Scanned(data, m, letters, x + 1, fb', seeds', meaningful', controls', lastN', position')
  {
    fb', seeds', meaningful', controls', lastN', position' := fb, seeds, meaningful, controls, lastN, position;
    var checkLetter := data[x];
    NonControlStep(data, m, x);
    if IsCntrl(checkLetter) {
      controls' := controls + 1;
      return;
    }
    seeds', meaningful', lastN' := ScanLetter(fb, m, letters, checkLetter, seeds, meaningful, lastN, position);
    fb' := fb + [checkLetter];
    position' := position + 1;
  }

  /**
   * The seeding loop: it builds the full buffer, seq2positions, the count of
   * meaningful letters and the count of control characters.
   */
  method SeedScan(data: string, m: nat, letters: set<char>)
      returns (fb: string, seeds: Groups, meaningful: nat, controls: nat)
    ensures fb == FullBuffer(data, m)
    ensures seeds == AllSeeds(fb, m, letters)
    ensures meaningful == Meaningful(fb, letters, m, |fb|)
    ensures |fb| + controls == |data|
  {
    controls := 0;
    meaningful := 0;
    seeds := map[];
    if |data| < m {
      fb := data;
      return;
    }
    fb := data[..m];
    var lastN := InitialLastN(fb, m, letters);
    var position: nat := 0;
    var x := m;
    assert data[m..m] == [];
    while x < |data|
      invariant Scanned(data, m, letters, x, fb, seeds, meaningful, controls, lastN, position)
      decreases |data| - x
    {
      fb, seeds, meaningful, controls, lastN, position :=
        ScanChar(data, m, letters, x, fb, seeds, meaningful, controls, lastN, position);
      x := x + 1;
    }
    assert data[m..x] == data[m..];
  }
}
