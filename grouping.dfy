/**
 * The two steps process_file of T24 makes at every length: it drops the
 * contents seen at fewer than copy_number positions from seq2positions,
 * and it turns what is left into start2seq, the map from each start to its
 * content. The position lists of the source hold distinct positions and
 * only their members and their size are used, so they are sets here.
 */
module Grouping {
  /** start2seq: each start and the content found there. */
  type Level = map<nat, string>

  /** seq2positions: each content and the starts it was found at. */
  type Groups = map<string, set<nat>>

  /** g with start p added under content s. */
  function AddPosition(g: Groups, s: string, p: nat): (r: Groups)
    ensures r.Keys == g.Keys + {s}
    ensures r[s] == (if s in g then g[s] else {}) + {p}
    ensures forall t :: t in g && t != s ==> r[t] == g[t]
  {
    g[s := (if s in g then g[s] else {}) + {p}]
  }

  /** The contents at copy number c or more, with their starts. */
  function Frequent(g: Groups, c: nat): (r: Groups)
    ensures r.Keys <= g.Keys
    ensures forall s :: s in g ==> (s in r <==> |g[s]| >= c)
    ensures forall s :: s in r ==> r[s] == g[s]
  {
    map s | s in g && |g[s]| >= c :: g[s]
  }

  /** The number of starts of content s. */
  function CopyNumber(g: Groups, s: string): nat {
    if s in g then |g[s]| else 0
  }

  /** The erase loop that removes the contents seen fewer than c times. */
  method CopyFilter(g: Groups, c: nat) returns (kept: Groups)
    ensures kept == Frequent(g, c)
  {
    kept := g;
    var todo := g.Keys;
    while todo != {}
      invariant todo <= g.Keys
      invariant kept.Keys <= g.Keys
      invariant forall s :: s in kept ==> kept[s] == g[s]
      invariant forall s :: s in g && s !in todo ==> (s in kept <==> |g[s]| >= c)
      invariant forall s :: s in todo ==> s in kept
      decreases |todo|
    {
      var s :| s in todo;
      if |kept[s]| < c {
        kept := kept - {s};
      }
      todo := todo - {s};
    }
  }

  /** No start is listed under two contents. */
  predicate Disjoint(g: Groups) {
    forall s, t, p :: s in g && t in g && p in g[s] && p in g[t] ==> s == t
  }

  /** start2seq built from seq2positions. */
  function FlatLevel(g: Groups): (r: Level)
    requires Disjoint(g)
    ensures forall s, p :: s in g && p in g[s] ==> p in r && r[p] == s
    ensures forall p :: p in r ==> r[p] in g && p in g[r[p]]
  {
    map s, p | s in g && p in g[s] :: p := s
  }

  /** Dropping contents keeps the starts of the others apart. */
  lemma FrequentDisjoint(g: Groups, c: nat)
    requires Disjoint(g)
    ensures Disjoint(Frequent(g, c))
  {
  }

  /** The loops over seq2positions and over each position list that fill start2seq. */
  method Flatten(g: Groups) returns (level: Level)
    requires Disjoint(g)
    ensures level == FlatLevel(g)
  {
    level := map[];
    var todo := g.Keys;
    while todo != {}
      invariant todo <= g.Keys
      invariant forall s, p :: s in g && s !in todo && p in g[s] ==> p in level && level[p] == s
      invariant forall p :: p in level ==> level[p] in g && level[p] !in todo && p in g[level[p]]
      decreases |todo|
    {
      var s :| s in todo;
      level := AddStarts(g, level, s, todo);
      todo := todo - {s};
    }
    assert level == FlatLevel(g);
  }

  /** The inner loop: every start of content s is mapped to s. */
  method AddStarts(g: Groups, level: Level, s: string, todo: set<string>) returns (level': Level)
    requires Disjoint(g) && s in todo && todo <= g.Keys
    requires forall p :: p in level ==> level[p] in g && level[p] !in todo && p in g[level[p]]
    ensures forall p :: p in level ==> p in level' && level'[p] == level[p]
    ensures forall p :: p in g[s] ==> p in level' && level'[p] == s
    ensures forall p :: p in level' ==> level'[p] in g && level'[p] !in todo - {s} && p in g[level'[p]]
  {
    level' := level;
    var starts := g[s];
    while starts != {}
      invariant starts <= g[s]
      invariant forall p :: p in level ==> p in level' && level'[p] == level[p]
      invariant forall p :: p in g[s] && p !in starts ==> p in level' && level'[p] == s
      invariant forall p :: p in level' ==> level'[p] in g && level'[p] !in todo - {s} && p in g[level'[p]]
      invariant forall p :: p in starts ==> p !in level'
      decreases |starts|
    {
      var p :| p in starts;
      level' := level'[p := s];
      starts := starts - {p};
    }
  }
}
