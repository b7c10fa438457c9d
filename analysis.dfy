/** `analyze` of both engines (wavefc/src/lib.rs and wfc/src/lib.rs): the
    overlapping adjacencies become patterns, which are counted and
    deduplicated; unless transforms are switched off, three mirrored copies
    of every pattern join the catalog, which is deduplicated again.
    `prune_lone_patterns` (wavefc only) then drops patterns with fewer than
    five rules. */
module Analysis {
  import opened Geometry
  import opened Grids
  import opened Adjacencies
  import opened Catalog
  import Seqs

  // ----------------------------------------------------------------------
  // Building the patterns

  /** One rule per present neighbour, its direction the neighbour's index. */
  function RulesOf(neighbours: seq<Option<Grid>>): seq<Rule> {
    if neighbours == [] then []
    else
      var n := |neighbours| - 1;
      RulesOf(neighbours[..n]) + (if neighbours[n].Some? then [Rule(n, neighbours[n].value)] else [])
  }

  /** A pattern has the rule `Rule(d, c)` exactly when its adjacency has
      the neighbour `c` in direction `d`. */
  lemma {:induction false} RulesOfMembers(neighbours: seq<Option<Grid>>, r: Rule)
    ensures r in RulesOf(neighbours) <==> r.direction < |neighbours| && neighbours[r.direction] == Some(r.content)
  {
    if neighbours != [] {
      var n := |neighbours| - 1;
      RulesOfMembers(neighbours[..n], r);
    }
  }

  /** The rule loop of `analyze` for one adjacency. */
  method NeighbourRules(neighbours: seq<Option<Grid>>) returns (rules: seq<Rule>)
    ensures rules == RulesOf(neighbours)
  {
    rules := [];
    for i := 0 to |neighbours|
      invariant rules == RulesOf(neighbours[..i])
    {
      assert neighbours[..i + 1][..i] == neighbours[..i];
      if neighbours[i].Some? {
        rules := rules + [Rule(i, neighbours[i].value)];
      }
    }
    assert neighbours[..|neighbours|] == neighbours;
  }

  /** The pattern `analyze` makes of the `k`-th adjacency. */
  function BuiltPattern(a: Adjacency, k: nat): Pattern {
    NewPattern(k, a.root).(rules := RulesOf(a.neighbours))
  }

  /** The patterns `analyze` makes of its adjacencies, numbered in order. */
  function Built(adjs: seq<Adjacency>): seq<Pattern> {
    seq(|adjs|, k requires 0 <= k < |adjs| => BuiltPattern(adjs[k], k))
  }

  /** Built patterns are fresh and numbered by position, so their ids differ. */
  lemma BuiltFresh(adjs: seq<Adjacency>)
    ensures |Built(adjs)| == |adjs|
    ensures forall k :: 0 <= k < |adjs| ==> Fresh(Built(adjs)[k]) && Built(adjs)[k].id == k
    ensures DistinctIds(Built(adjs))
  {
  }

  method BuildPatterns(adjs: seq<Adjacency>) returns (patterns: seq<Pattern>)
    ensures patterns == Built(adjs)
  {
    patterns := [];
    var idCounter := 0;
    for k := 0 to |adjs|
      invariant idCounter == k
      invariant patterns == Built(adjs[..k])
    {
      var pattern := NewPattern(idCounter, adjs[k].root);
      idCounter := idCounter + 1;
      var rules := NeighbourRules(adjs[k].neighbours);
      pattern := pattern.(rules := rules);
      patterns := patterns + [pattern];
    }
    assert adjs[..|adjs|] == adjs;
  }

  // ----------------------------------------------------------------------
  // Transforms

  /** Every column reversed: the grid mirrored top to bottom. */
  function FlipColumns(g: Grid): Grid {
    seq(|g|, x requires 0 <= x < |g| => Seqs.Reverse(g[x]))
  }

  /** `x_transf`: the content mirrored left to right; left and right rules
      trade directions. */
  function XTransf(r: Rule): Rule {
    Rule(if r.direction == 1 then 3 else if r.direction == 3 then 1 else r.direction, Seqs.Reverse(r.content))
  }

  /** `y_transf`: the content mirrored top to bottom; up and down rules
      trade directions. */
  function YTransf(r: Rule): Rule {
    Rule(if r.direction == 0 then 2 else if r.direction == 2 then 0 else r.direction, FlipColumns(r.content))
  }

  /** `y_transf` after `x_transf`, as the combination applies them. */
  function XYTransf(r: Rule): Rule {
    YTransf(XTransf(r))
  }

  function MapRules(rules: seq<Rule>, f: Rule -> Rule): seq<Rule> {
    seq(|rules|, i requires 0 <= i < |rules| => f(rules[i]))
  }

  function MirroredX(p: Pattern, id: nat): Pattern {
    p.(id := id, isTransform := true, contents := Seqs.Reverse(p.contents), rules := MapRules(p.rules, XTransf))
  }

  function MirroredY(p: Pattern, id: nat): Pattern {
    p.(id := id, isTransform := true, contents := FlipColumns(p.contents), rules := MapRules(p.rules, YTransf))
  }

  function Combination(p: Pattern, id: nat): Pattern {
    p.(id := id, isTransform := true, contents := FlipColumns(Seqs.Reverse(p.contents)), rules := MapRules(p.rules, XYTransf))
  }

  /** Mirroring moves each cell to the opposite side of its axis: column
      `x` of `w` becomes column `w - 1 - x`, row `y` of a column of height
      `h` becomes row `h - 1 - y`. */
  lemma MirrorCells(g: Grid, x: nat, y: nat)
    requires x < |g| && y < |g[|g| - 1 - x]| && y < |g[x]|
    ensures Seqs.Reverse(g)[x][y] == g[|g| - 1 - x][y]
    ensures FlipColumns(g)[x][y] == g[x][|g[x]| - 1 - y]
    ensures FlipColumns(Seqs.Reverse(g))[x][y] == g[|g| - 1 - x][|g[|g| - 1 - x]| - 1 - y]
  {
  }

  lemma FlipColumnsTwice(g: Grid)
    ensures FlipColumns(FlipColumns(g)) == g
  {
    forall x | 0 <= x < |g| ensures FlipColumns(FlipColumns(g))[x] == g[x] {
      Seqs.ReverseReverse(g[x]);
    }
  }

  lemma FlipReverseCommute(g: Grid)
    ensures FlipColumns(Seqs.Reverse(g)) == Seqs.Reverse(FlipColumns(g))
  {
  }

  /** Both rule transforms undo themselves, and they commute. */
  lemma TransfInvolutions(r: Rule)
    ensures XTransf(XTransf(r)) == r
    ensures YTransf(YTransf(r)) == r
    ensures XTransf(YTransf(r)) == YTransf(XTransf(r))
  {
    Seqs.ReverseReverse(r.content);
    FlipColumnsTwice(r.content);
    FlipReverseCommute(r.content);
  }

  /** Rule transforms keep a direction among the four and move it to its
      mirror: right and left swap under `x_transf`, up and down under
      `y_transf`. */
  lemma TransfDirections(r: Rule)
    requires r.direction < 4
    ensures XTransf(r).direction < 4 && YTransf(r).direction < 4
    ensures (XTransf(r).direction == 1 <==> r.direction == 3) && (XTransf(r).direction == 3 <==> r.direction == 1)
    ensures (YTransf(r).direction == 0 <==> r.direction == 2) && (YTransf(r).direction == 2 <==> r.direction == 0)
    ensures r.direction % 2 == 0 ==> XTransf(r).direction == r.direction
    ensures r.direction % 2 == 1 ==> YTransf(r).direction == r.direction
  {
  }

  /** The combination is the x mirror followed by the y mirror (or the other
      way round): only the id given to it differs. */
  lemma CombinationComposes(p: Pattern, id: nat, other: nat)
    ensures Combination(p, id) == MirroredY(MirroredX(p, other), id)
    ensures Combination(p, id) == MirroredX(MirroredY(p, other), id)
  {
    FlipReverseCommute(p.contents);
    forall i | 0 <= i < |p.rules| ensures XTransf(YTransf(p.rules[i])) == XYTransf(p.rules[i]) {
      TransfInvolutions(p.rules[i]);
    }
  }

  /** Mirroring twice on the same axis gives back the contents and rules. */
  lemma MirrorTwice(p: Pattern, id: nat, other: nat)
    ensures MirroredX(MirroredX(p, other), id) == p.(id := id, isTransform := true)
    ensures MirroredY(MirroredY(p, other), id) == p.(id := id, isTransform := true)
  {
    Seqs.ReverseReverse(p.contents);
    FlipColumnsTwice(p.contents);
    forall i | 0 <= i < |p.rules| ensures XTransf(XTransf(p.rules[i])) == p.rules[i] && YTransf(YTransf(p.rules[i])) == p.rules[i] {
      TransfInvolutions(p.rules[i]);
    }
  }

  /** The three copies `analyze` adds for each pattern, numbered on from `idStart`. */
  function Transforms(patterns: seq<Pattern>, idStart: nat): (r: seq<Pattern>)
    ensures |r| == 3 * |patterns|
  {
    if patterns == [] then []
    else
      var n := |patterns| - 1;
      var id := idStart + 3 * n;
      Transforms(patterns[..n], idStart) + [MirroredX(patterns[n], id), MirroredY(patterns[n], id + 1), Combination(patterns[n], id + 2)]
  }

  /** Copy `3k` of pattern `k` is its x mirror, `3k + 1` its y mirror and
      `3k + 2` the combination; copy `i` has id `idStart + i`, and every
      copy is a transform. */
  lemma {:induction false} TransformsAt(patterns: seq<Pattern>, idStart: nat, k: nat)
    requires k < |patterns|
    ensures Transforms(patterns, idStart)[3 * k] == MirroredX(patterns[k], idStart + 3 * k)
    ensures Transforms(patterns, idStart)[3 * k + 1] == MirroredY(patterns[k], idStart + 3 * k + 1)
    ensures Transforms(patterns, idStart)[3 * k + 2] == Combination(patterns[k], idStart + 3 * k + 2)
  {
    var n := |patterns| - 1;
    if k < n {
      TransformsAt(patterns[..n], idStart, k);
      assert patterns[..n][k] == patterns[k];
    }
  }

  lemma {:induction false} TransformIds(patterns: seq<Pattern>, idStart: nat)
    ensures forall i :: 0 <= i < |Transforms(patterns, idStart)| ==>
              Transforms(patterns, idStart)[i].id == idStart + i && Transforms(patterns, idStart)[i].isTransform
  {
    if patterns != [] {
      var n := |patterns| - 1;
      TransformIds(patterns[..n], idStart);
    }
  }

  /** The per-rule loop of a transform. */
  method TransformRules(rules: seq<Rule>, f: Rule -> Rule) returns (out: seq<Rule>)
    ensures out == MapRules(rules, f)
  {
    out := rules;
    for i := 0 to |out|
      invariant |out| == |rules|
      invariant forall k :: 0 <= k < i ==> out[k] == f(rules[k])
      invariant forall k :: i <= k < |rules| ==> out[k] == rules[k]
    {
      out := out[i := f(out[i])];
    }
  }

  /** The transform loop of `analyze`. */
  method TransformCopies(patterns: seq<Pattern>, idStart: nat) returns (copies: seq<Pattern>)
    ensures copies == Transforms(patterns, idStart)
  {
    copies := [];
    var idCounter := idStart;
    for k := 0 to |patterns|
      invariant idCounter == idStart + 3 * k
      invariant copies == Transforms(patterns[..k], idStart)
    {
      var pattern := patterns[k];
      var mirroredX := pattern.(isTransform := true, id := idCounter);
      idCounter := idCounter + 1;
      var mirroredY := pattern.(isTransform := true, id := idCounter);
      idCounter := idCounter + 1;
      var combination := pattern.(isTransform := true, id := idCounter);
      idCounter := idCounter + 1;
      mirroredX := mirroredX.(contents := Seqs.Reverse(mirroredX.contents));
      mirroredY := mirroredY.(contents := FlipColumns(mirroredY.contents));
      combination := combination.(contents := FlipColumns(Seqs.Reverse(combination.contents)));
      var rx := TransformRules(mirroredX.rules, XTransf);
      mirroredX := mirroredX.(rules := rx);
      var ry := TransformRules(mirroredY.rules, YTransf);
      mirroredY := mirroredY.(rules := ry);
      var rc := TransformRules(combination.rules, XYTransf);
      combination := combination.(rules := rc);
      assert patterns[..k + 1][..k] == patterns[..k];
      copies := copies + [mirroredX, mirroredY, combination];
    }
    assert patterns[..|patterns|] == patterns;
  }

  // ----------------------------------------------------------------------
  // `analyze`

  /** The adjacencies `analyze` starts from: `overlapping_adjacencies`. */
  function OverlapList(input: Grid, chunk: Vec2, mode: BorderMode): seq<Adjacency>
    requires chunk.x > 0 && chunk.y > 0 ==> Rect(input) && |input| > 0 && DimensionsOf(input).y > 0
  {
    if chunk.x == 0 || chunk.y == 0 then []
    else Scan(|input|, DimensionsOf(input).y, OverlapCell(input, chunk.x, chunk.y, mode))
  }

  /** The counted and deduplicated patterns of the adjacencies. */
  function FirstCatalog(adjs: seq<Adjacency>): seq<Pattern> {
    Deduplicated(CountAll(Built(adjs)))
  }

  /** The catalog `analyze` stores: the first catalog, with three mirrored
      copies of each pattern (ids continuing after the adjacencies') unless
      transforms are off, deduplicated once more. */
  function Catalogued(adjs: seq<Adjacency>, noTransforms: bool): seq<Pattern> {
    var first := FirstCatalog(adjs);
    Deduplicated(if noTransforms then first else first + Transforms(first, |adjs|))
  }

  /** Mirror copies keep the counts of their originals. */
  lemma TransformsWeighted(patterns: seq<Pattern>, idStart: nat)
    requires Weighted(patterns)
    ensures Weighted(Transforms(patterns, idStart))
  {
    var copies := Transforms(patterns, idStart);
    forall p | p in copies
      ensures p.count > 0
    {
      var j :| 0 <= j < |copies| && copies[j] == p;
      var i := j / 3;
      TransformsAt(patterns, idStart, i);
      assert patterns[i] in patterns;
    }
  }

  /** Every pattern of the catalog has a positive count: a built pattern
      starts at 1, counting only adds, and copies and merges keep counts. */
  lemma CatalogWeights(adjs: seq<Adjacency>, noTransforms: bool)
    ensures Weighted(Catalogued(adjs, noTransforms))
  {
    var built := Built(adjs);
    BuiltFresh(adjs);
    assert Weighted(built) by {
      forall p | p in built ensures p.count > 0 {
        var k :| 0 <= k < |built| && built[k] == p;
      }
    }
    CountAllWeighted(built);
    var first := FirstCatalog(adjs);
    DedupWeighted(CountAll(built));
    if noTransforms {
      DedupWeighted(first);
    } else {
      TransformsWeighted(first, |adjs|);
      var all := first + Transforms(first, |adjs|);
      assert Weighted(all) by {
        forall p | p in all ensures p.count > 0 {
          assert p in first || p in Transforms(first, |adjs|);
        }
      }
      DedupWeighted(all);
    }
  }

  /** `analyze` without its bookkeeping: the catalog and `patterns_total`,
      the number of adjacencies. */
  method AnalyzePatterns(input: Grid, chunk: Vec2, mode: BorderMode, noTransforms: bool)
    returns (patterns: seq<Pattern>, total: nat)
    requires chunk.x > 0 && chunk.y > 0 ==> Rect(input) && |input| > 0 && DimensionsOf(input).y > 0
    ensures patterns == Catalogued(OverlapList(input, chunk, mode), noTransforms)
    ensures total == |OverlapList(input, chunk, mode)|
  {
    var adjacencies := OverlappingAdjacencies(input, chunk, mode);
    total := |adjacencies|;
    patterns := BuildPatterns(adjacencies);
    var idCounter := |adjacencies|;
    patterns := CountPatterns(patterns);
    patterns := DedupPatterns(patterns);
    if !noTransforms {
      var newPatterns := TransformCopies(patterns, idCounter);
      patterns := patterns + newPatterns;
    }
    patterns := DedupPatterns(patterns);
  }

  /** The first catalog is sorted by contents, holds each contents once, and
      its rules are tidy. */
  lemma FirstCatalogShape(adjs: seq<Adjacency>)
    ensures Seqs.SortedBy(FirstCatalog(adjs), PatternLe())
    ensures forall i, j :: 0 <= i < j < |FirstCatalog(adjs)| ==> FirstCatalog(adjs)[i].contents != FirstCatalog(adjs)[j].contents
    ensures forall k :: 0 <= k < |FirstCatalog(adjs)| ==> Seqs.SortedBy(FirstCatalog(adjs)[k].rules, RuleLe())
    ensures forall k, i, j :: 0 <= k < |FirstCatalog(adjs)| && 0 <= i < j < |FirstCatalog(adjs)[k].rules| ==>
              FirstCatalog(adjs)[k].rules[i] != FirstCatalog(adjs)[k].rules[j]
  {
    var first := FirstCatalog(adjs);
    BuiltFresh(adjs);
    DedupSorted(CountAll(Built(adjs)));
    CatalogDistinct(Built(adjs));
    forall k | 0 <= k < |first|
      ensures Seqs.SortedBy(first[k].rules, RuleLe())
      ensures forall i, j :: 0 <= i < j < |first[k].rules| ==> first[k].rules[i] != first[k].rules[j]
    {
      assert first[k] in first;
      DedupRulesTidy(CountAll(Built(adjs)), first[k]);
    }
  }

  /** Without transforms the second deduplication changes nothing. */
  lemma NoTransformCatalog(adjs: seq<Adjacency>)
    ensures Catalogued(adjs, true) == FirstCatalog(adjs)
  {
    FirstCatalogShape(adjs);
    DedupIdempotent(FirstCatalog(adjs));
  }

  /** How many of the adjacencies have root `g`. */
  function RootCount(g: Grid, adjs: seq<Adjacency>): nat {
    if adjs == [] then 0
    else RootCount(g, adjs[..|adjs| - 1]) + (if adjs[|adjs| - 1].root == g then 1 else 0)
  }

  lemma {:induction false} OccurrencesBuilt(g: Grid, adjs: seq<Adjacency>)
    ensures Occurrences(g, Built(adjs)) == RootCount(g, adjs)
  {
    if adjs != [] {
      var n := |adjs| - 1;
      OccurrencesBuilt(g, adjs[..n]);
      assert Built(adjs)[..n] == Built(adjs[..n]);
    }
  }

  /** Every root gets a pattern in the first catalog. */
  lemma FirstCovers(adjs: seq<Adjacency>, k: nat)
    requires k < |adjs|
    ensures exists p :: p in FirstCatalog(adjs) && p.contents == adjs[k].root
  {
    CountAllKeeps(Built(adjs));
    DedupCovers(CountAll(Built(adjs)), k);
  }

  /** Every pattern of the first catalog has the contents of some root. */
  lemma FirstFromRoots(adjs: seq<Adjacency>, p: Pattern)
    requires p in FirstCatalog(adjs)
    ensures exists k :: 0 <= k < |adjs| && adjs[k].root == p.contents
  {
    var c := CountAll(Built(adjs));
    CountAllKeeps(Built(adjs));
    DedupFrom(c, p);
    var k :| 0 <= k < |c| && p == Merged(c[k], c);
    assert p.contents == c[k].contents;
    assert c[k].contents == Built(adjs)[k].contents;
    assert Built(adjs)[k] == BuiltPattern(adjs[k], k);
  }

  /** Without transforms, the catalog holds one pattern per distinct root,
      sorted by contents; none other. */
  lemma CatalogRoots(adjs: seq<Adjacency>)
    ensures Seqs.SortedBy(Catalogued(adjs, true), PatternLe())
    ensures forall i, j :: 0 <= i < j < |Catalogued(adjs, true)| ==> Catalogued(adjs, true)[i].contents != Catalogued(adjs, true)[j].contents
    ensures forall k :: 0 <= k < |adjs| ==> exists p :: p in Catalogued(adjs, true) && p.contents == adjs[k].root
    ensures forall p :: p in Catalogued(adjs, true) ==> exists k :: 0 <= k < |adjs| && adjs[k].root == p.contents
  {
    NoTransformCatalog(adjs);
    FirstCatalogShape(adjs);
    forall k | 0 <= k < |adjs| ensures exists p :: p in FirstCatalog(adjs) && p.contents == adjs[k].root {
      FirstCovers(adjs, k);
    }
    forall p | p in FirstCatalog(adjs) ensures exists k :: 0 <= k < |adjs| && adjs[k].root == p.contents {
      FirstFromRoots(adjs, p);
    }
  }

  /** Without transforms, a pattern's count is the number of windows with
      its contents. */
  lemma CatalogCounts(adjs: seq<Adjacency>, p: Pattern)
    requires p in Catalogued(adjs, true)
    ensures p.count == RootCount(p.contents, adjs)
  {
    NoTransformCatalog(adjs);
    BuiltFresh(adjs);
    DedupCounts(Built(adjs), p);
    OccurrencesBuilt(p.contents, adjs);
  }

  /** Without transforms, a pattern allows exactly the neighbours seen next
      to some window with its contents, each once, sorted. */
  lemma CatalogRules(adjs: seq<Adjacency>, p: Pattern, r: Rule)
    requires p in Catalogued(adjs, true)
    ensures Seqs.SortedBy(p.rules, RuleLe())
    ensures forall i, j :: 0 <= i < j < |p.rules| ==> p.rules[i] != p.rules[j]
    ensures r in p.rules <==>
              exists k :: 0 <= k < |adjs| && adjs[k].root == p.contents &&
                r.direction < |adjs[k].neighbours| && adjs[k].neighbours[r.direction] == Some(r.content)
  {
    NoTransformCatalog(adjs);
    var c := CountAll(Built(adjs));
    CountedIds(adjs);
    DedupRules(c, p);
    if r in p.rules {
      var k :| 0 <= k < |c| && c[k].contents == p.contents && r in c[k].rules;
      CountedBuilt(adjs, k);
      RulesOfMembers(adjs[k].neighbours, r);
    }
    if exists k :: 0 <= k < |adjs| && adjs[k].root == p.contents &&
                   r.direction < |adjs[k].neighbours| && adjs[k].neighbours[r.direction] == Some(r.content) {
      var k :| 0 <= k < |adjs| && adjs[k].root == p.contents &&
               r.direction < |adjs[k].neighbours| && adjs[k].neighbours[r.direction] == Some(r.content);
      CountedBuilt(adjs, k);
      RulesOfMembers(adjs[k].neighbours, r);
      assert c[k].contents == p.contents && r in c[k].rules;
    }
  }

  /** The counted patterns keep the ids of the built ones. */
  lemma CountedIds(adjs: seq<Adjacency>)
    ensures DistinctIds(CountAll(Built(adjs)))
  {
    BuiltFresh(adjs);
    CountAllKeeps(Built(adjs));
  }

  /** Counted pattern `k` has the root and the rules of adjacency `k`. */
  lemma CountedBuilt(adjs: seq<Adjacency>, k: nat)
    requires k < |adjs|
    ensures |CountAll(Built(adjs))| == |adjs|
    ensures CountAll(Built(adjs))[k].contents == adjs[k].root
    ensures CountAll(Built(adjs))[k].rules == RulesOf(adjs[k].neighbours)
  {
  }

  /** `g` is `root` or one of its three mirror images. */
  predicate MirrorOf(g: Grid, root: Grid) {
    g == root || g == Seqs.Reverse(root) || g == FlipColumns(root) || g == FlipColumns(Seqs.Reverse(root))
  }

  /** With transforms, the catalog is sorted by contents and its rules are tidy. */
  lemma TransformedShape(adjs: seq<Adjacency>, p: Pattern)
    requires p in Catalogued(adjs, false)
    ensures Seqs.SortedBy(Catalogued(adjs, false), PatternLe())
    ensures Seqs.SortedBy(p.rules, RuleLe())
    ensures forall i, j :: 0 <= i < j < |p.rules| ==> p.rules[i] != p.rules[j]
  {
    var first := FirstCatalog(adjs);
    DedupSorted(first + Transforms(first, |adjs|));
    DedupRulesTidy(first + Transforms(first, |adjs|), p);
  }

  /** Each pattern and its three copies sit in `patterns + copies`. */
  lemma CopiesCover(patterns: seq<Pattern>, idStart: nat, i: nat, g: Grid)
    requires i < |patterns| && MirrorOf(g, patterns[i].contents)
    ensures exists j :: 0 <= j < |patterns + Transforms(patterns, idStart)| && (patterns + Transforms(patterns, idStart))[j].contents == g
  {
    var all := patterns + Transforms(patterns, idStart);
    TransformsAt(patterns, idStart, i);
    var n := |patterns|;
    if g == patterns[i].contents {
      assert all[i].contents == g;
    } else if g == Seqs.Reverse(patterns[i].contents) {
      assert all[n + 3 * i].contents == g;
    } else if g == FlipColumns(patterns[i].contents) {
      assert all[n + 3 * i + 1].contents == g;
    } else {
      assert all[n + 3 * i + 2].contents == g;
    }
  }

  /** Every entry of `patterns + copies` is a pattern or a mirror image of one. */
  lemma CopiesFrom(patterns: seq<Pattern>, idStart: nat, j: nat)
    requires j < |patterns + Transforms(patterns, idStart)|
    ensures exists i :: 0 <= i < |patterns| && MirrorOf((patterns + Transforms(patterns, idStart))[j].contents, patterns[i].contents)
  {
    var n := |patterns|;
    if j < n {
      assert MirrorOf((patterns + Transforms(patterns, idStart))[j].contents, patterns[j].contents);
    } else {
      var i := (j - n) / 3;
      TransformsAt(patterns, idStart, i);
      assert MirrorOf((patterns + Transforms(patterns, idStart))[j].contents, patterns[i].contents);
    }
  }

  /** With transforms, every root and each of its three mirror images has a
      pattern. */
  lemma TransformedCovers(adjs: seq<Adjacency>, k: nat, g: Grid)
    requires k < |adjs| && MirrorOf(g, adjs[k].root)
    ensures exists p :: p in Catalogued(adjs, false) && p.contents == g
  {
    var first := FirstCatalog(adjs);
    var all := first + Transforms(first, |adjs|);
    FirstCovers(adjs, k);
    var q :| q in first && q.contents == adjs[k].root;
    var i :| 0 <= i < |first| && first[i] == q;
    CopiesCover(first, |adjs|, i, g);
    var j :| 0 <= j < |all| && all[j].contents == g;
    DedupCovers(all, j);
  }

  /** With transforms, every pattern is a root or a mirror image of one. */
  lemma TransformedFromRoots(adjs: seq<Adjacency>, p: Pattern)
    requires p in Catalogued(adjs, false)
    ensures exists k :: 0 <= k < |adjs| && MirrorOf(p.contents, adjs[k].root)
  {
    var first := FirstCatalog(adjs);
    var all := first + Transforms(first, |adjs|);
    DedupFrom(all, p);
    var j :| 0 <= j < |all| && p == Merged(all[j], all);
    CopiesFrom(first, |adjs|, j);
    var i :| 0 <= i < |first| && MirrorOf(all[j].contents, first[i].contents);
    assert first[i] in first;
    FirstFromRoots(adjs, first[i]);
    var k :| 0 <= k < |adjs| && adjs[k].root == first[i].contents;
    assert MirrorOf(p.contents, adjs[k].root);
  }

  // ----------------------------------------------------------------------
  // `prune_lone_patterns`

  /** A pattern `prune_lone_patterns` keeps: at least five rules. */
  predicate Kept(p: Pattern) {
    |p.rules| >= 5
  }

  /** The indexes of the patterns with fewer than five rules, ascending. */
  method LoneIndexes(patterns: seq<Pattern>) returns (indexes: seq<nat>)
    ensures Seqs.StrictlyIncreasing(indexes)
    ensures forall k: nat :: k in indexes <==> k < |patterns| && !Kept(patterns[k])
  {
    indexes := [];
    for i := 0 to |patterns|
      invariant Seqs.StrictlyIncreasing(indexes)
      invariant forall m :: 0 <= m < |indexes| ==> indexes[m] < i
      invariant forall k: nat :: k in indexes <==> k < i && !Kept(patterns[k])
    {
      if |patterns[i].rules| < 5 {
        indexes := indexes + [i];
      }
    }
  }

  /** `prune_lone_patterns`: removes the listed indexes one by one, each
      shifted down by the number already removed. */
  method PruneLonePatterns(patterns: seq<Pattern>) returns (kept: seq<Pattern>)
    ensures kept == Seqs.Filter(patterns, Kept)
  {
    var indexes := LoneIndexes(patterns);
    kept := Seqs.RemoveIndexes(patterns, indexes);
    Seqs.KeepIsFilter(patterns, indexes, Kept);
  }

  /** Pruning keeps, in their order, exactly the patterns with at least five rules. */
  lemma PrunedKeeps(patterns: seq<Pattern>)
    ensures Seqs.IsSubseq(Seqs.Filter(patterns, Kept), patterns)
    ensures forall p :: p in Seqs.Filter(patterns, Kept) <==> p in patterns && |p.rules| >= 5
  {
    Seqs.FilterIsSubseq(patterns, Kept);
  }

  // ----------------------------------------------------------------------
  // Shape of the catalog

  /** Every root `overlapping_adjacencies` extracts is a `chunk`-sized window. */
  lemma OverlapRootShape(input: Grid, chunk: Vec2, mode: BorderMode, k: nat)
    requires chunk.x > 0 && chunk.y > 0 && Rect(input) && |input| > 0 && DimensionsOf(input).y > 0
    requires k < |OverlapList(input, chunk, mode)|
    ensures IsRect(OverlapList(input, chunk, mode)[k].root, chunk.x, chunk.y)
  {
    var f := OverlapCell(input, chunk.x, chunk.y, mode);
    var a := OverlapList(input, chunk, mode)[k];
    ScanMembers(|input|, DimensionsOf(input).y, f, a);
  }

  /** Mirroring keeps a grid's shape. */
  lemma MirrorShape(g: Grid, root: Grid, w: nat, h: nat)
    requires IsRect(root, w, h) && MirrorOf(g, root)
    ensures IsRect(g, w, h)
  {
  }

  /** A catalog built from `w` x `h` roots holds only `w` x `h` contents. */
  lemma PlainCatalogShape(adjs: seq<Adjacency>, w: nat, h: nat, p: Pattern)
    requires forall k :: 0 <= k < |adjs| ==> IsRect(adjs[k].root, w, h)
    requires p in Catalogued(adjs, true)
    ensures IsRect(p.contents, w, h)
  {
    NoTransformCatalog(adjs);
    FirstFromRoots(adjs, p);
  }

  lemma MirroredCatalogShape(adjs: seq<Adjacency>, w: nat, h: nat, p: Pattern)
    requires forall k :: 0 <= k < |adjs| ==> IsRect(adjs[k].root, w, h)
    requires p in Catalogued(adjs, false)
    ensures IsRect(p.contents, w, h)
  {
    TransformedFromRoots(adjs, p);
    var k :| 0 <= k < |adjs| && MirrorOf(p.contents, adjs[k].root);
    MirrorShape(p.contents, adjs[k].root, w, h);
  }

  /** Every catalogued pattern is `chunk`-sized, with or without transforms. */
  lemma CatalogShape(input: Grid, chunk: Vec2, mode: BorderMode, noTransforms: bool)
    requires chunk.x > 0 && chunk.y > 0 && Rect(input) && |input| > 0 && DimensionsOf(input).y > 0
    ensures forall p :: p in Catalogued(OverlapList(input, chunk, mode), noTransforms) ==> IsRect(p.contents, chunk.x, chunk.y)
  {
    var adjs := OverlapList(input, chunk, mode);
    forall k | 0 <= k < |adjs| ensures IsRect(adjs[k].root, chunk.x, chunk.y) {
      OverlapRootShape(input, chunk, mode, k);
    }
    forall p | p in Catalogued(adjs, noTransforms) ensures IsRect(p.contents, chunk.x, chunk.y) {
      if noTransforms {
        PlainCatalogShape(adjs, chunk.x, chunk.y, p);
      } else {
        MirroredCatalogShape(adjs, chunk.x, chunk.y, p);
      }
    }
  }

  // ----------------------------------------------------------------------
  // What `analyze` stores

  /** The catalog `analyze` stores: pruned when `prune` is set (the newer
      engine's `PruneDeadweight`). */
  ghost function Analyzed(input: Grid, chunk: Vec2, mode: BorderMode, noTransforms: bool, prune: bool): seq<Pattern>
    requires chunk.x > 0 && chunk.y > 0 ==> Rect(input) && |input| > 0 && DimensionsOf(input).y > 0
  {
    var catalog := Catalogued(OverlapList(input, chunk, mode), noTransforms);
    if prune then Seqs.Filter(catalog, Kept) else catalog
  }

  /** The work of `analyze` before it stores its results: every pattern of
      the catalog has a positive count and is a `chunk` grid. */
  method AnalyzeCatalog(input: Grid, chunk: Vec2, mode: BorderMode, noTransforms: bool, prune: bool)
    returns (catalog: seq<Pattern>, total: nat)
    requires chunk.x > 0 && chunk.y > 0 ==> Rect(input) && |input| > 0 && DimensionsOf(input).y > 0
    ensures catalog == Analyzed(input, chunk, mode, noTransforms, prune)
    ensures total == |OverlapList(input, chunk, mode)|
    ensures Weighted(catalog)
    ensures chunk.x > 0 && chunk.y > 0 ==> forall p :: p in catalog ==> IsRect(p.contents, chunk.x, chunk.y)
  {
    catalog, total := AnalyzePatterns(input, chunk, mode, noTransforms);
    CatalogWeights(OverlapList(input, chunk, mode), noTransforms);
    if chunk.x > 0 && chunk.y > 0 {
      CatalogShape(input, chunk, mode, noTransforms);
    }
    if prune {
      PrunedKeeps(catalog);
      catalog := PruneLonePatterns(catalog);
    }
  }
}
