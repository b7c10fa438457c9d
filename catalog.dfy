/** The pattern catalog (`analyze` and its helpers in wavefc/src/lib.rs and
    wfc/src/lib.rs, which share this code): every overlapping window becomes
    a `Pattern` with one `Rule` per present neighbour; `count_patterns`
    counts repeated contents, `dedup_patterns` merges the rules of equal
    contents and removes duplicates, and the three mirror transforms add
    mirrored copies. */
module Catalog {
  import opened Geometry
  import opened Orders
  import opened Adjacencies
  import Seqs

  /** A neighbour `content` allowed in `direction` (0 up, 1 right, 2 down, 3 left). */
  datatype Rule = Rule(direction: nat, content: Grid)

  /** A catalog entry; `count` is how often its contents occur in the input. */
  datatype Pattern = Pattern(id: nat, isTransform: bool, count: nat, contents: Grid, rules: seq<Rule>)

  /** `Pattern::new`: count 1, no rules, not a transform. */
  function NewPattern(id: nat, contents: Grid): Pattern {
    Pattern(id, false, 1, contents, [])
  }

  // ----------------------------------------------------------------------
  // Orders and equality

  /** The derived `Ord` of `Rule`: direction first, then content. */
  function RuleLe(): (Rule, Rule) -> bool {
    (r: Rule, s: Rule) => r.direction < s.direction || (r.direction == s.direction && Lex(r.content, s.content, RowLe()))
  }

  /** The `Ord` of `Pattern`: contents only. */
  function PatternLe(): (Pattern, Pattern) -> bool {
    (p: Pattern, q: Pattern) => Lex(p.contents, q.contents, RowLe())
  }

  /** The `PartialEq` of `Pattern`: contents, rules and count; id and the
      transform flag are ignored. */
  function PatternEq(): (Pattern, Pattern) -> bool {
    (p: Pattern, q: Pattern) => p.contents == q.contents && p.rules == q.rules && p.count == q.count
  }

  lemma RuleLeTotalOrder()
    ensures TotalOrder(RuleLe())
  {
    GridLeTotalOrder();
    var g := (a: seq<seq<nat>>, b: seq<seq<nat>>) => Lex(a, b, RowLe());
    assert g == GridLe();
    forall r: Rule, s: Rule ensures RuleLe()(r, s) || RuleLe()(s, r) {
      assert g(r.content, s.content) || g(s.content, r.content);
    }
    forall r: Rule, s: Rule, t: Rule | RuleLe()(r, s) && RuleLe()(s, t) ensures RuleLe()(r, t) {
      if r.direction == s.direction == t.direction {
        assert g(r.content, s.content) && g(s.content, t.content);
      }
    }
    forall r: Rule, s: Rule | RuleLe()(r, s) && RuleLe()(s, r) ensures r == s {
      assert g(r.content, s.content) && g(s.content, r.content);
    }
  }

  /** Patterns are ordered totally by contents; patterns the order cannot
      tell apart have equal contents. */
  lemma PatternLeTotalPreorder()
    ensures Seqs.TotalPreorder(PatternLe())
    ensures forall p, q :: PatternLe()(p, q) && PatternLe()(q, p) ==> p.contents == q.contents
  {
    GridLeTotalOrder();
    var g := (a: seq<seq<nat>>, b: seq<seq<nat>>) => Lex(a, b, RowLe());
    assert g == GridLe();
    forall p: Pattern, q: Pattern ensures PatternLe()(p, q) || PatternLe()(q, p) {
      assert g(p.contents, q.contents) || g(q.contents, p.contents);
    }
    forall p: Pattern, q: Pattern, s: Pattern | PatternLe()(p, q) && PatternLe()(q, s) ensures PatternLe()(p, s) {
      assert g(p.contents, q.contents) && g(q.contents, s.contents);
    }
    forall p: Pattern, q: Pattern | PatternLe()(p, q) && PatternLe()(q, p) ensures p.contents == q.contents {
      assert g(p.contents, q.contents) && g(q.contents, p.contents);
    }
  }

  // ----------------------------------------------------------------------
  // `count_patterns`

  /** `q` is another non-transform occurrence of `p`'s contents. */
  predicate CountsFor(p: Pattern, q: Pattern) {
    !q.isTransform && q.contents == p.contents && q.id != p.id
  }

  /** How many patterns of `copy` count for `p`. */
  function Duplicates(p: Pattern, copy: seq<Pattern>): nat {
    if copy == [] then 0
    else Duplicates(p, copy[..|copy| - 1]) + (if CountsFor(p, copy[|copy| - 1]) then 1 else 0)
  }

  /** `p` after `count_patterns` has compared it with every pattern of `copy`;
      transform patterns are left alone. */
  function Counted(p: Pattern, copy: seq<Pattern>): Pattern {
    if p.isTransform then p else p.(count := p.count + Duplicates(p, copy))
  }

  /** `count_patterns` on the whole list. */
  function CountAll(patterns: seq<Pattern>): seq<Pattern> {
    seq(|patterns|, i requires 0 <= i < |patterns| => Counted(patterns[i], patterns))
  }

  /** `count_patterns`: each non-transform pattern's count grows by one per
      other non-transform pattern with equal contents and a different id. */
  method CountPatterns(patterns: seq<Pattern>) returns (counted: seq<Pattern>)
    ensures counted == CountAll(patterns)
  {
    var copy := patterns;
    counted := patterns;
    for i := 0 to |counted|
      invariant |counted| == |patterns|
      invariant forall k :: 0 <= k < i ==> counted[k] == Counted(patterns[k], patterns)
      invariant forall k :: i <= k < |patterns| ==> counted[k] == patterns[k]
    {
      var pattern := counted[i];
      if !pattern.isTransform {
        for j := 0 to |copy|
          invariant pattern == patterns[i].(count := patterns[i].count + Duplicates(patterns[i], copy[..j]))
        {
          var patcopy := copy[j];
          assert copy[..j + 1][..j] == copy[..j];
          if !patcopy.isTransform && pattern.contents == patcopy.contents && pattern.id != patcopy.id {
            pattern := pattern.(count := pattern.count + 1);
          }
        }
        assert copy[..|copy|] == copy;
        counted := counted[i := pattern];
      }
    }
  }

  /** The number of non-transform patterns of `s` with contents `c`. */
  function Occurrences(c: Grid, s: seq<Pattern>): nat {
    if s == [] then 0
    else Occurrences(c, s[..|s| - 1]) + (if !s[|s| - 1].isTransform && s[|s| - 1].contents == c then 1 else 0)
  }

  /** The number of non-transform patterns of `s` with `p`'s contents and `p`'s id. */
  function SameId(p: Pattern, s: seq<Pattern>): nat {
    if s == [] then 0
    else SameId(p, s[..|s| - 1]) + (if !s[|s| - 1].isTransform && s[|s| - 1].contents == p.contents && s[|s| - 1].id == p.id then 1 else 0)
  }

  lemma {:induction false} CountPartition(p: Pattern, s: seq<Pattern>)
    ensures Duplicates(p, s) + SameId(p, s) == Occurrences(p.contents, s)
  {
    if s != [] {
      CountPartition(p, s[..|s| - 1]);
    }
  }

  ghost predicate DistinctIds(s: seq<Pattern>) {
    forall i, j :: 0 <= i < j < |s| ==> s[i].id != s[j].id
  }

  lemma {:induction false} SameIdOnce(s: seq<Pattern>, k: nat)
    requires DistinctIds(s) && k < |s| && !s[k].isTransform
    ensures SameId(s[k], s) == 1
  {
    var n := |s| - 1;
    if k < n {
      SameIdOnce(s[..n], k);
    } else {
      assert forall j :: 0 <= j < n ==> s[..n][j].id != s[k].id;
      SameIdNone(s[k], s[..n]);
    }
  }

  lemma {:induction false} SameIdNone(p: Pattern, s: seq<Pattern>)
    requires forall j :: 0 <= j < |s| ==> s[j].id != p.id
    ensures SameId(p, s) == 0
  {
    if s != [] {
      SameIdNone(p, s[..|s| - 1]);
    }
  }

  /** With distinct ids, counting adds to a non-transform pattern the number
      of its contents' other occurrences: a fresh pattern (count 1) ends with
      the number of occurrences of its contents, so patterns with equal
      contents end with equal counts. */
  lemma CountedIsOccurrences(s: seq<Pattern>, k: nat)
    requires DistinctIds(s) && k < |s| && !s[k].isTransform
    ensures CountAll(s)[k].count + 1 == s[k].count + Occurrences(s[k].contents, s)
    ensures CountAll(s)[k] == s[k].(count := CountAll(s)[k].count)
  {
    CountPartition(s[k], s);
    SameIdOnce(s, k);
  }

  // ----------------------------------------------------------------------
  // `dedup_patterns`

  /** Pushes each rule of `extra` that is not already present, in order. */
  function AddMissing(rules: seq<Rule>, extra: seq<Rule>): (r: seq<Rule>)
    ensures |rules| <= |r| && r[..|rules|] == rules
    ensures forall x :: x in r <==> x in rules || x in extra
  {
    if extra == [] then rules
    else
      var m := AddMissing(rules, extra[..|extra| - 1]);
      var x := extra[|extra| - 1];
      assert extra == extra[..|extra| - 1] + [x];
      if x in m then m else m + [x]
  }

  /** Another pattern with `p`'s contents, whose rules `p` takes over. */
  predicate MergesInto(p: Pattern, q: Pattern) {
    q.contents == p.contents && q.id != p.id
  }

  /** The rules of `p` once the merge loop of `dedup_patterns` has visited `copy`. */
  function Absorbed(p: Pattern, copy: seq<Pattern>): seq<Rule> {
    if copy == [] then p.rules
    else
      var r := Absorbed(p, copy[..|copy| - 1]);
      var q := copy[|copy| - 1];
      if MergesInto(p, q) then AddMissing(r, q.rules) else r
  }

  /** After the merge, `p` holds exactly its own rules and the rules of every
      other pattern with equal contents and a different id. */
  lemma {:induction false} AbsorbedMembers(p: Pattern, copy: seq<Pattern>, x: Rule)
    ensures x in Absorbed(p, copy) <==>
              x in p.rules || exists j :: 0 <= j < |copy| && MergesInto(p, copy[j]) && x in copy[j].rules
  {
    if copy != [] {
      var c' := copy[..|copy| - 1];
      AbsorbedMembers(p, c', x);
      if exists j :: 0 <= j < |c'| && MergesInto(p, c'[j]) && x in c'[j].rules {
        var j :| 0 <= j < |c'| && MergesInto(p, c'[j]) && x in c'[j].rules;
        assert copy[j] == c'[j];
      }
      if exists j :: 0 <= j < |copy| && MergesInto(p, copy[j]) && x in copy[j].rules {
        var j :| 0 <= j < |copy| && MergesInto(p, copy[j]) && x in copy[j].rules;
        if j < |c'| {
          assert c'[j] == copy[j];
        }
      }
    }
  }

  /** `rules.sort(); rules.dedup()`. */
  function Tidy(rules: seq<Rule>): seq<Rule> {
    Seqs.Dedup(Seqs.SortBy(rules, RuleLe()))
  }

  /** Tidying keeps exactly the same rules, sorted, each once. */
  lemma TidyRules(rules: seq<Rule>)
    ensures forall x :: x in Tidy(rules) <==> x in rules
    ensures Seqs.SortedBy(Tidy(rules), RuleLe())
    ensures forall i, j :: 0 <= i < j < |Tidy(rules)| ==> Tidy(rules)[i] != Tidy(rules)[j]
  {
    var sorted := Seqs.SortBy(rules, RuleLe());
    RuleLeTotalOrder();
    Seqs.DedupMembers(sorted);
    assert forall x :: x in sorted <==> x in multiset(sorted);
    Seqs.SortSorted(rules, RuleLe());
    Seqs.SubseqSorted(Tidy(rules), sorted, RuleLe());
    SortedDistinct(Tidy(rules), RuleLe());
  }

  /** A pattern as the first two phases of `dedup_patterns` leave it. */
  function Merged(p: Pattern, copy: seq<Pattern>): Pattern {
    p.(rules := Tidy(Absorbed(p, copy)))
  }

  /** Every pattern of `patterns` after the first two phases of `dedup_patterns`. */
  function MergedAll(patterns: seq<Pattern>): seq<Pattern> {
    seq(|patterns|, i requires 0 <= i < |patterns| => Merged(patterns[i], patterns))
  }

  /** `dedup_patterns`: merge, tidy each rule list, sort the patterns by
      contents (stably) and drop each pattern equal to the one kept before it. */
  function Deduplicated(patterns: seq<Pattern>): seq<Pattern> {
    Seqs.DedupBy(Seqs.SortBy(MergedAll(patterns), PatternLe()), PatternEq())
  }

  /** The merge loop of `dedup_patterns` for one pattern. */
  method MergeRules(p: Pattern, copy: seq<Pattern>) returns (rules: seq<Rule>)
    ensures rules == Absorbed(p, copy)
  {
    rules := p.rules;
    for j := 0 to |copy|
      invariant rules == Absorbed(p, copy[..j])
    {
      var patcopy := copy[j];
      assert copy[..j + 1][..j] == copy[..j];
      if p.contents == patcopy.contents && p.id != patcopy.id {
        ghost var before := rules;
        for k := 0 to |patcopy.rules|
          invariant rules == AddMissing(before, patcopy.rules[..k])
        {
          assert patcopy.rules[..k + 1][..k] == patcopy.rules[..k];
          if patcopy.rules[k] !in rules {
            rules := rules + [patcopy.rules[k]];
          }
        }
        assert patcopy.rules[..|patcopy.rules|] == patcopy.rules;
      }
    }
    assert copy[..|copy|] == copy;
  }

  /** The first phase of `dedup_patterns`: every pattern takes over the
      rules of the other patterns with its contents. */
  method MergePhase(patterns: seq<Pattern>) returns (merged: seq<Pattern>)
    ensures |merged| == |patterns|
    ensures forall k :: 0 <= k < |merged| ==> merged[k] == patterns[k].(rules := Absorbed(patterns[k], patterns))
  {
    var copy := patterns;
    merged := patterns;
    for i := 0 to |merged|
      invariant |merged| == |patterns|
      invariant forall k :: 0 <= k < i ==> merged[k] == patterns[k].(rules := Absorbed(patterns[k], patterns))
      invariant forall k :: i <= k < |patterns| ==> merged[k] == patterns[k]
    {
      var rules := MergeRules(merged[i], copy);
      merged := merged[i := merged[i].(rules := rules)];
    }
  }

  /** `dedup_patterns`. */
  method DedupPatterns(patterns: seq<Pattern>) returns (out: seq<Pattern>)
    ensures out == Deduplicated(patterns)
  {
    var merged := MergePhase(patterns);
    for i := 0 to |merged|
      invariant |merged| == |patterns|
      invariant forall k :: 0 <= k < i ==> merged[k] == Merged(patterns[k], patterns)
      invariant forall k :: i <= k < |patterns| ==> merged[k] == patterns[k].(rules := Absorbed(patterns[k], patterns))
    {
      merged := merged[i := merged[i].(rules := Tidy(merged[i].rules))];
    }
    assert merged == MergedAll(patterns);
    out := Seqs.DedupBy(Seqs.SortBy(merged, PatternLe()), PatternEq());
  }

  /** With distinct ids, the merge gives a pattern exactly the rules of every
      input pattern with its contents. */
  lemma UnionMembers(s: seq<Pattern>, k: nat, x: Rule)
    requires DistinctIds(s) && k < |s|
    ensures x in Absorbed(s[k], s) <==> exists j :: 0 <= j < |s| && s[j].contents == s[k].contents && x in s[j].rules
  {
    AbsorbedMembers(s[k], s, x);
    if exists j :: 0 <= j < |s| && s[j].contents == s[k].contents && x in s[j].rules {
      var j :| 0 <= j < |s| && s[j].contents == s[k].contents && x in s[j].rules;
      if j != k {
        assert MergesInto(s[k], s[j]);
      }
    }
  }

  /** Every pattern `dedup_patterns` returns is an input pattern after the merge. */
  lemma DedupFrom(s: seq<Pattern>, p: Pattern)
    requires p in Deduplicated(s)
    ensures exists k :: 0 <= k < |s| && p == Merged(s[k], s)
  {
    var sorted := Seqs.SortBy(MergedAll(s), PatternLe());
    assert p in sorted;
    assert p in multiset(sorted);
    assert p in multiset(MergedAll(s));
    var k :| 0 <= k < |s| && MergedAll(s)[k] == p;
  }

  /** The patterns `dedup_patterns` returns are sorted by contents. */
  lemma DedupSorted(s: seq<Pattern>)
    ensures Seqs.SortedBy(Deduplicated(s), PatternLe())
  {
    var sorted := Seqs.SortBy(MergedAll(s), PatternLe());
    PatternLeTotalPreorder();
    Seqs.SortSorted(MergedAll(s), PatternLe());
    Seqs.DedupBySubseq(sorted, PatternEq());
    Seqs.SubseqSorted(Deduplicated(s), sorted, PatternLe());
  }

  /** Each returned pattern's rules are sorted, listed once each, and are
      exactly the rules of all the input patterns with its contents. */
  lemma DedupRules(s: seq<Pattern>, p: Pattern)
    requires DistinctIds(s) && p in Deduplicated(s)
    ensures Seqs.SortedBy(p.rules, RuleLe())
    ensures forall i, j :: 0 <= i < j < |p.rules| ==> p.rules[i] != p.rules[j]
    ensures forall x :: x in p.rules <==> exists j :: 0 <= j < |s| && s[j].contents == p.contents && x in s[j].rules
  {
    DedupFrom(s, p);
    var k :| 0 <= k < |s| && p == Merged(s[k], s);
    TidyRules(Absorbed(s[k], s));
    forall x ensures x in p.rules <==> exists j :: 0 <= j < |s| && s[j].contents == p.contents && x in s[j].rules {
      UnionMembers(s, k, x);
    }
  }

  /** Every input contents survives `dedup_patterns`. */
  lemma DedupCovers(s: seq<Pattern>, k: nat)
    requires k < |s|
    ensures exists p :: p in Deduplicated(s) && p.contents == s[k].contents
  {
    var sorted := Seqs.SortBy(MergedAll(s), PatternLe());
    var i := SortedIndex(s, k);
    Seqs.DedupByCovers(sorted, PatternEq(), i);
    var out := Deduplicated(s);
    var j :| 0 <= j < |out| && (out[j] == sorted[i] || PatternEq()(out[j], sorted[i]));
    assert out[j] in out;
  }

  /** Sorting the merged patterns keeps the one made from input pattern `k`. */
  lemma SortedIndex(s: seq<Pattern>, k: nat) returns (i: nat)
    requires k < |s|
    ensures i < |Seqs.SortBy(MergedAll(s), PatternLe())|
    ensures Seqs.SortBy(MergedAll(s), PatternLe())[i].contents == s[k].contents
  {
    var merged := MergedAll(s);
    var sorted := Seqs.SortBy(merged, PatternLe());
    assert merged[k] in multiset(merged);
    assert merged[k] in multiset(sorted);
    i :| 0 <= i < |sorted| && sorted[i] == merged[k];
  }

  /** A pattern as `analyze` creates it: not a transform, count 1. */
  predicate Fresh(p: Pattern) {
    !p.isTransform && p.count == 1
  }

  /** Every pattern has a positive count, so a weighted draw among any
      of them has positive total weight. */
  ghost predicate Weighted(patterns: seq<Pattern>) {
    forall p :: p in patterns ==> p.count > 0
  }

  /** Counting never lowers a count. */
  lemma CountAllWeighted(s: seq<Pattern>)
    requires Weighted(s)
    ensures Weighted(CountAll(s))
  {
    forall p | p in CountAll(s)
      ensures p.count > 0
    {
      var k :| 0 <= k < |s| && CountAll(s)[k] == p;
      assert s[k] in s;
    }
  }

  /** Deduplicating keeps the counts of the patterns it keeps. */
  lemma DedupWeighted(s: seq<Pattern>)
    requires Weighted(s)
    ensures Weighted(Deduplicated(s))
  {
    forall p | p in Deduplicated(s)
      ensures p.count > 0
    {
      DedupFrom(s, p);
      var k :| 0 <= k < |s| && p == Merged(s[k], s);
      assert s[k] in s;
    }
  }

  /** Counting keeps ids, contents, rules and the transform flag. */
  lemma CountAllKeeps(s: seq<Pattern>)
    ensures |CountAll(s)| == |s|
    ensures forall k :: 0 <= k < |s| ==> CountAll(s)[k] == s[k].(count := CountAll(s)[k].count)
  {
  }

  /** Among fresh patterns with distinct ids, after counting and merging,
      any two with equal contents are equal as `PartialEq` sees them. */
  lemma MergedCountedEq(s: seq<Pattern>, i: nat, j: nat)
    requires DistinctIds(s) && forall k :: 0 <= k < |s| ==> Fresh(s[k])
    requires i < |s| && j < |s| && s[i].contents == s[j].contents
    ensures PatternEq()(MergedAll(CountAll(s))[i], MergedAll(CountAll(s))[j])
  {
    var c := CountAll(s);
    CountAllKeeps(s);
    assert DistinctIds(c);
    CountedIsOccurrences(s, i);
    CountedIsOccurrences(s, j);
    var a := Absorbed(c[i], c);
    var b := Absorbed(c[j], c);
    forall x ensures x in a <==> x in b {
      UnionMembers(c, i, x);
      UnionMembers(c, j, x);
    }
    TidyRules(a);
    TidyRules(b);
    forall x ensures x in Tidy(a) <==> x in Tidy(b) {
    }
    RuleLeTotalOrder();
    SortedUnique(Tidy(a), Tidy(b), RuleLe());
  }

  lemma DedupInMerged(s: seq<Pattern>)
    ensures forall p :: p in Deduplicated(s) ==> p in MergedAll(s)
  {
    var sorted := Seqs.SortBy(MergedAll(s), PatternLe());
    forall p | p in Deduplicated(s) ensures p in MergedAll(s) {
      assert p in sorted;
      assert p in multiset(sorted);
    }
  }

  lemma MergedEqByContents(s: seq<Pattern>)
    requires DistinctIds(s) && forall k :: 0 <= k < |s| ==> Fresh(s[k])
    ensures forall a, b :: a in MergedAll(CountAll(s)) && b in MergedAll(CountAll(s)) && a.contents == b.contents ==> PatternEq()(a, b)
  {
    forall a, b | a in MergedAll(CountAll(s)) && b in MergedAll(CountAll(s)) && a.contents == b.contents
      ensures PatternEq()(a, b)
    {
      MergedPairEq(s, a, b);
    }
  }

  lemma MergedPairEq(s: seq<Pattern>, a: Pattern, b: Pattern)
    requires DistinctIds(s) && forall k :: 0 <= k < |s| ==> Fresh(s[k])
    requires a in MergedAll(CountAll(s)) && b in MergedAll(CountAll(s)) && a.contents == b.contents
    ensures PatternEq()(a, b)
  {
    var merged := MergedAll(CountAll(s));
    var i :| 0 <= i < |merged| && merged[i] == a;
    var j :| 0 <= j < |merged| && merged[j] == b;
    MergedContents(s, i);
    MergedContents(s, j);
    MergedCountedEq(s, i, j);
  }

  /** Counting and merging keep a pattern's contents. */
  lemma MergedContents(s: seq<Pattern>, i: nat)
    requires i < |s|
    ensures |MergedAll(CountAll(s))| == |s|
    ensures MergedAll(CountAll(s))[i].contents == s[i].contents
  {
  }

  /** `count_patterns` followed by `dedup_patterns` on fresh patterns with
      distinct ids leaves one pattern per distinct contents. */
  lemma CatalogDistinct(s: seq<Pattern>)
    requires DistinctIds(s) && forall k :: 0 <= k < |s| ==> Fresh(s[k])
    ensures forall i, j :: 0 <= i < j < |Deduplicated(CountAll(s))| ==>
              Deduplicated(CountAll(s))[i].contents != Deduplicated(CountAll(s))[j].contents
  {
    var out := Deduplicated(CountAll(s));
    DedupSorted(CountAll(s));
    TiesEqual(s);
    EqualTies(out);
    PatternLeTotalPreorder();
    Orders.SortedApart(out, PatternLe(), PatternEq());
  }

  /** Two returned patterns the order cannot tell apart are equal as
      `PartialEq` sees them. */
  lemma TiesEqual(s: seq<Pattern>)
    requires DistinctIds(s) && forall k :: 0 <= k < |s| ==> Fresh(s[k])
    ensures var out := Deduplicated(CountAll(s));
            forall i, j :: 0 <= i < |out| && 0 <= j < |out| && PatternLe()(out[i], out[j]) && PatternLe()(out[j], out[i]) ==>
              PatternEq()(out[i], out[j])
  {
    var c := CountAll(s);
    var out := Deduplicated(c);
    PatternLeTotalPreorder();
    DedupInMerged(c);
    MergedEqByContents(s);
    forall i, j | 0 <= i < |out| && 0 <= j < |out| && PatternLe()(out[i], out[j]) && PatternLe()(out[j], out[i])
      ensures PatternEq()(out[i], out[j])
    {
      assert out[i] in out && out[j] in out;
    }
  }

  /** Patterns equal as `PartialEq` sees them sort as ties. */
  lemma EqualTies(out: seq<Pattern>)
    ensures forall i, j :: 0 <= i < |out| && 0 <= j < |out| && PatternEq()(out[i], out[j]) ==> PatternLe()(out[j], out[i])
  {
    forall i, j | 0 <= i < |out| && 0 <= j < |out| && PatternEq()(out[i], out[j]) ensures PatternLe()(out[j], out[i]) {
      GridLeTotalOrder();
      assert GridLe()(out[i].contents, out[i].contents);
    }
  }

  /** After counting and deduplication, a returned pattern's count is the
      number of input patterns with its contents. */
  lemma DedupCounts(s: seq<Pattern>, p: Pattern)
    requires DistinctIds(s) && forall k :: 0 <= k < |s| ==> Fresh(s[k])
    requires p in Deduplicated(CountAll(s))
    ensures p.count == Occurrences(p.contents, s)
  {
    var c := CountAll(s);
    DedupFrom(c, p);
    var k :| 0 <= k < |c| && p == Merged(c[k], c);
    MergedCount(s, k);
  }

  lemma MergedCount(s: seq<Pattern>, k: nat)
    requires DistinctIds(s) && k < |s| && Fresh(s[k])
    ensures Merged(CountAll(s)[k], CountAll(s)).contents == s[k].contents
    ensures Merged(CountAll(s)[k], CountAll(s)).count == Occurrences(s[k].contents, s)
  {
    CountedIsOccurrences(s, k);
  }

  /** A sequence without repeats whose only member is `r` is `[r]`. */
  lemma SoleMember<T>(s: seq<T>, r: T)
    requires forall x :: x in s <==> x == r
    requires forall i, j :: 0 <= i < j < |s| ==> s[i] != s[j]
    ensures s == [r]
  {
    assert r in s && s[0] in s;
    SecondMember(s);
  }

  lemma SecondMember<T>(s: seq<T>)
    ensures |s| > 1 ==> s[1] in s
  {
  }

  /** The catalog test of wavefc/src/tests.rs: `[[0]]` with an up rule,
      and `[[1]]` twice, the second time with its down rule listed twice. */
  function ExamplePatterns(): seq<Pattern> {
    [Pattern(0, false, 1, [[0]], [Rule(0, [[1]])]),
     Pattern(1, false, 1, [[1]], [Rule(2, [[0]])]),
     Pattern(2, false, 1, [[1]], [Rule(2, [[0]]), Rule(2, [[0]])])]
  }

  /** Patterns sorted by contents, with distinct contents, covering exactly
      `a` and `b` where `a` sorts first: `a`'s pattern, then `b`'s. */
  lemma TwoSorted(out: seq<Pattern>, a: Grid, b: Grid)
    requires forall i, j :: 0 <= i < j < |out| ==> out[i].contents != out[j].contents
    requires forall p :: p in out ==> p.contents == a || p.contents == b
    requires (exists p :: p in out && p.contents == a) && (exists p :: p in out && p.contents == b)
    requires Seqs.SortedBy(out, PatternLe())
    requires a != b && GridLe()(a, b)
    ensures |out| == 2 && out[0].contents == a && out[1].contents == b
  {
    assert out[0] in out;
    SecondMember(out);
    ThirdMember(out);
    GridLeTotalOrder();
    assert PatternLe()(out[0], out[1]);
  }

  /** Fresh patterns with distinct ids whose contents are `a` and `b`,
      `a` sorting first, count and deduplicate to `a`'s pattern followed by
      `b`'s. */
  lemma TwoContents(s: seq<Pattern>, a: Grid, b: Grid, ka: nat, kb: nat)
    requires DistinctIds(s) && forall k :: 0 <= k < |s| ==> Fresh(s[k])
    requires forall k :: 0 <= k < |s| ==> s[k].contents == a || s[k].contents == b
    requires ka < |s| && kb < |s| && s[ka].contents == a && s[kb].contents == b
    requires a != b && GridLe()(a, b)
    ensures |Deduplicated(CountAll(s))| == 2
    ensures Deduplicated(CountAll(s))[0].contents == a
    ensures Deduplicated(CountAll(s))[1].contents == b
  {
    CatalogDistinct(s);
    CountedCovers(s, ka);
    CountedCovers(s, kb);
    CountedFrom(s);
    DedupSorted(CountAll(s));
    TwoSorted(Deduplicated(CountAll(s)), a, b);
  }

  /** Counting then deduplicating keeps a pattern with the contents of input pattern `k`. */
  lemma CountedCovers(s: seq<Pattern>, k: nat)
    requires k < |s|
    ensures exists p :: p in Deduplicated(CountAll(s)) && p.contents == s[k].contents
  {
    CountAllKeeps(s);
    DedupCovers(CountAll(s), k);
  }

  /** ... and keeps no contents the input did not have. */
  lemma CountedFrom(s: seq<Pattern>)
    ensures forall p :: p in Deduplicated(CountAll(s)) ==> exists k :: 0 <= k < |s| && p.contents == s[k].contents
  {
    var c := CountAll(s);
    DedupInMerged(c);
    forall p | p in Deduplicated(c) ensures exists k :: 0 <= k < |s| && p.contents == s[k].contents {
      var i :| 0 <= i < |MergedAll(c)| && MergedAll(c)[i] == p;
      MergedContents(s, i);
    }
  }

  lemma ThirdMember<T>(s: seq<T>)
    ensures |s| > 2 ==> s[2] in s
  {
  }

  /** Counting then deduplicating the example leaves two patterns, `[[0]]` first. */
  lemma ExampleOrder(s: seq<Pattern>)
    requires s == ExamplePatterns()
    ensures |Deduplicated(CountAll(s))| == 2
    ensures Deduplicated(CountAll(s))[0].contents == [[0]]
    ensures Deduplicated(CountAll(s))[1].contents == [[1]]
  {
    assert DistinctIds(s);
    assert RowLe()([0], [1]);
    TwoContents(s, [[0]], [[1]], 0, 1);
  }

  lemma ExampleOccurrences(s: seq<Pattern>)
    requires s == ExamplePatterns()
    ensures Occurrences([[0]], s) == 1 && Occurrences([[1]], s) == 2
  {
    var s1, s2 := s[..1], s[..2];
    assert s1[..0] == [] && s2[..1] == s1 && s[..2] == s2;
    assert Occurrences([[0]], s1) == 1 && Occurrences([[1]], s1) == 0;
    assert Occurrences([[0]], s2) == 1 && Occurrences([[1]], s2) == 1;
  }

  /** `[[0]]` keeps count 1 and `[[1]]` is counted twice. */
  lemma ExampleCounts(s: seq<Pattern>)
    requires s == ExamplePatterns()
    ensures |Deduplicated(CountAll(s))| == 2
    ensures Deduplicated(CountAll(s))[0].count == 1
    ensures Deduplicated(CountAll(s))[1].count == 2
  {
    ExampleOrder(s);
    ExampleOccurrences(s);
    ExampleFresh(s);
    var out := Deduplicated(CountAll(s));
    assert out[0] in out && out[1] in out;
    DedupCounts(s, out[0]);
    DedupCounts(s, out[1]);
  }

  /** The example's patterns are fresh, with ids 0, 1 and 2. */
  lemma ExampleFresh(s: seq<Pattern>)
    requires s == ExamplePatterns()
    ensures DistinctIds(s) && forall k :: 0 <= k < |s| ==> Fresh(s[k])
  {
  }

  /** When every rule of the input patterns with `p`'s contents is `r`,
      `p` leaves `dedup_patterns` with the single rule `r`. */
  lemma SoleRule(s: seq<Pattern>, p: Pattern, r: Rule, k: nat)
    requires DistinctIds(s) && p in Deduplicated(s)
    requires forall j, x :: 0 <= j < |s| && s[j].contents == p.contents && x in s[j].rules ==> x == r
    requires k < |s| && s[k].contents == p.contents && r in s[k].rules
    ensures p.rules == [r]
  {
    DedupRules(s, p);
    SoleMember(p.rules, r);
  }

  /** Each pattern of the example leaves with its rule listed once. */
  lemma ExampleRules(s: seq<Pattern>)
    requires s == ExamplePatterns()
    ensures |Deduplicated(CountAll(s))| == 2
    ensures Deduplicated(CountAll(s))[0].rules == [Rule(0, [[1]])]
    ensures Deduplicated(CountAll(s))[1].rules == [Rule(2, [[0]])]
  {
    ExampleOrder(s);
    var c := CountAll(s);
    var out := Deduplicated(c);
    ExampleCounted(s);
    assert out[0] in out && out[1] in out;
    SoleRule(c, out[0], Rule(0, [[1]]), 0);
    SoleRule(c, out[1], Rule(2, [[0]]), 1);
  }

  /** Counting the example keeps ids, contents and rules: every rule listed
      with contents `[[0]]` is the up rule, every one with `[[1]]` the down rule. */
  lemma ExampleCounted(s: seq<Pattern>)
    requires s == ExamplePatterns()
    ensures DistinctIds(CountAll(s)) && |CountAll(s)| == 3
    ensures CountAll(s)[0].contents == [[0]] && Rule(0, [[1]]) in CountAll(s)[0].rules
    ensures CountAll(s)[1].contents == [[1]] && Rule(2, [[0]]) in CountAll(s)[1].rules
    ensures forall j, x :: 0 <= j < 3 && CountAll(s)[j].contents == [[0]] && x in CountAll(s)[j].rules ==> x == Rule(0, [[1]])
    ensures forall j, x :: 0 <= j < 3 && CountAll(s)[j].contents == [[1]] && x in CountAll(s)[j].rules ==> x == Rule(2, [[0]])
  {
    CountAllKeeps(s);
    var c := CountAll(s);
    assert c[0].rules == [Rule(0, [[1]])];
    assert c[1].rules == [Rule(2, [[0]])];
    assert c[2].rules == [Rule(2, [[0]]), Rule(2, [[0]])];
    assert c[0].contents != [[1]] by {
      assert c[0].contents[0][0] == 0;
    }
    assert c[1].contents != [[0]] && c[2].contents != [[0]] by {
      assert c[1].contents[0][0] == 1 && c[2].contents[0][0] == 1;
    }
  }

  /** The rules of every returned pattern are sorted and listed once each. */
  lemma DedupRulesTidy(s: seq<Pattern>, p: Pattern)
    requires p in Deduplicated(s)
    ensures Seqs.SortedBy(p.rules, RuleLe())
    ensures forall i, j :: 0 <= i < j < |p.rules| ==> p.rules[i] != p.rules[j]
  {
    DedupFrom(s, p);
    var k :| 0 <= k < |s| && p == Merged(s[k], s);
    TidyRules(Absorbed(s[k], s));
  }

  lemma {:induction false} AbsorbedNone(p: Pattern, copy: seq<Pattern>)
    requires forall j :: 0 <= j < |copy| ==> !MergesInto(p, copy[j])
    ensures Absorbed(p, copy) == p.rules
  {
    if copy != [] {
      AbsorbedNone(p, copy[..|copy| - 1]);
    }
  }

  /** Rules already sorted and without repeats are left as they are. */
  lemma TidyIdentity(rules: seq<Rule>)
    requires Seqs.SortedBy(rules, RuleLe())
    requires forall i, j :: 0 <= i < j < |rules| ==> rules[i] != rules[j]
    ensures Tidy(rules) == rules
  {
    Seqs.SortByIdentity(rules, RuleLe());
    Seqs.DedupIdentity(rules);
  }

  /** A catalog already sorted by contents, with distinct contents and tidy
      rules, passes through `dedup_patterns` unchanged. */
  lemma DedupIdempotent(s: seq<Pattern>)
    requires Seqs.SortedBy(s, PatternLe())
    requires forall i, j :: 0 <= i < j < |s| ==> s[i].contents != s[j].contents
    requires forall k :: 0 <= k < |s| ==> Seqs.SortedBy(s[k].rules, RuleLe())
    requires forall k, i, j :: 0 <= k < |s| && 0 <= i < j < |s[k].rules| ==> s[k].rules[i] != s[k].rules[j]
    ensures Deduplicated(s) == s
  {
    forall k | 0 <= k < |s| ensures MergedAll(s)[k] == s[k] {
      AbsorbedNone(s[k], s);
      TidyIdentity(s[k].rules);
    }
    assert MergedAll(s) == s;
    Seqs.SortByIdentity(s, PatternLe());
    Seqs.DedupByIdentity(s, PatternEq());
  }
}
