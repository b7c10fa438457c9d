/** The older engine, `Wave` in wfc/src/lib.rs: the same catalog, grid,
    search and projections as the current one, without the history log,
    without pruning, and without the empty-catalog check in `collapse_all`
    (whose iteration count is a local the callback alone reads). */
module Wfc {
  import opened Geometry
  import Arith
  import opened Adjacencies
  import opened Catalog
  import opened Engine
  import opened Search
  import Analysis
  import Reps

  /** `Flags`. */
  datatype Flag = NoWeights | NoTransforms

  class Wave {
    var flags: seq<Flag>
    var patterns: seq<Pattern>
    var patternsTotal: nat
    var elements: seq<Element>
    var chunkSize: Vec2
    var chunkFillSize: Vec2

    /** The elements follow `fill`'s layout, and every pattern, in the
        catalog or among the candidates, has a positive count. */
    ghost predicate Valid()
      reads this
    {
      Layout(elements, chunkFillSize) && Weighted(patterns) && CandidatesWeighted(elements)
    }

    /** Every catalog pattern is a `chunkSize` grid. */
    ghost predicate CatalogShaped()
      reads this
    {
      forall p :: p in patterns ==> IsRect(p.contents, chunkSize.x, chunkSize.y)
    }

    /** `Wave::new`. */
    constructor ()
      ensures Valid()
      ensures flags == [] && patterns == [] && patternsTotal == 0 && elements == []
      ensures chunkSize == Vec2(0, 0) && chunkFillSize == Vec2(0, 0)
    {
      flags, patterns, patternsTotal, elements := [], [], 0, [];
      chunkSize, chunkFillSize := Vec2(0, 0), Vec2(0, 0);
    }

    /** `analyze`: the catalog of the input's windows, with mirrored copies
        unless `NoTransforms` is set; `patterns_total` is the number of
        windows. */
    method Analyze(input: Grid, chunk: Vec2, mode: BorderMode)
      requires Valid()
      requires chunk.x > 0 && chunk.y > 0 ==> Rect(input) && |input| > 0 && DimensionsOf(input).y > 0
      modifies this
      ensures flags == old(flags) && elements == old(elements) && chunkFillSize == old(chunkFillSize)
      ensures Valid()
      ensures patterns == Analysis.Catalogued(Analysis.OverlapList(input, chunk, mode), NoTransforms in flags)
      ensures patternsTotal == |Analysis.OverlapList(input, chunk, mode)| && chunkSize == chunk
      ensures chunk.x > 0 && chunk.y > 0 ==> CatalogShaped()
    {
      var catalog, total := Analysis.AnalyzeCatalog(input, chunk, mode, NoTransforms in flags, false);
      patterns, patternsTotal, chunkSize := catalog, total, chunk;
    }

    /** `fill`: errors unless the output size is a multiple of the chunk
        size; otherwise the grid of `size / chunk` chunks, each holding the
        whole catalog. */
    method Fill(size: Vec2) returns (result: Result<()>)
      requires Valid() && chunkSize.x > 0 && chunkSize.y > 0
      modifies this
      ensures flags == old(flags) && patterns == old(patterns) && patternsTotal == old(patternsTotal)
      ensures chunkSize == old(chunkSize)
      ensures Valid()
      ensures size.x % chunkSize.x != 0 ==> result == Err(WidthNotFactor)
      ensures size.x % chunkSize.x == 0 && size.y % chunkSize.y != 0 ==> result == Err(HeightNotFactor)
      ensures result.Ok? <==> size.x % chunkSize.x == 0 && size.y % chunkSize.y == 0
      ensures result.Err? ==> elements == old(elements) && chunkFillSize == old(chunkFillSize)
      ensures result.Ok? ==> chunkFillSize == Vec2(size.x / chunkSize.x, size.y / chunkSize.y)
      ensures result.Ok? ==> |elements| == chunkFillSize.x * chunkFillSize.y
      ensures result.Ok? ==> forall i :: 0 <= i < |elements| ==> elements[i].values == patterns
      ensures result.Ok? && CatalogShaped() ==> Reps.Shaped(elements, chunkSize)
    {
      if size.x % chunkSize.x != 0 {
        return Err(WidthNotFactor);
      }
      if size.y % chunkSize.y != 0 {
        return Err(HeightNotFactor);
      }
      var fill := Vec2(size.x / chunkSize.x, size.y / chunkSize.y);
      elements := FillElements(patterns, fill);
      chunkFillSize := fill;
      Arith.MulIsProduct(fill.x, fill.y);
      return Ok(());
    }

    /** `collapse_once`: nothing on an empty grid; otherwise a draw, then
        propagation.  The draw is returned for the specification. */
    method CollapseOnce(entropy: seq<Pattern> -> real) returns (ghost center: nat, ghost choice: Pattern)
      requires Valid()
      requires elements != [] ==> AnyEligible(elements, entropy) || elements[0].values != []
      modifies this
      ensures flags == old(flags) && patterns == old(patterns) && patternsTotal == old(patternsTotal)
      ensures chunkSize == old(chunkSize) && chunkFillSize == old(chunkFillSize)
      ensures Valid()
      ensures old(elements) == [] ==> elements == []
      ensures old(elements) != [] ==>
                Drawn(old(elements), entropy, NoWeights in flags, center, choice) &&
                elements == Collapsed(old(elements), center, choice)
      ensures old(Reps.Shaped(elements, chunkSize)) ==> Reps.Shaped(elements, chunkSize)
    {
      center, choice := 0, Pattern(0, false, 0, [], []);
      if elements == [] {
        return;
      }
      WeightedDraws(elements, entropy);
      var next, c, pick := CollapseStep(elements, entropy, NoWeights in flags, chunkFillSize);
      center, choice := c, pick;
      CollapsedKeeps(elements, entropy, NoWeights in flags, c, pick, chunkFillSize, chunkSize);
      elements := next;
    }

    /** `collapse_all`: errors on an unfilled grid; otherwise collapses
        until every element holds one candidate, refilling after each
        contradiction and giving up when the number of contradictions
        reaches `maxContradictions`.  `failures` is the count the callback
        would see. */
    method CollapseAll(maxContradictions: nat, entropy: seq<Pattern> -> real, fuel: nat)
      returns (result: Result<()>, failures: nat)
      requires Valid()
      requires chunkFillSize.x > 0 && chunkFillSize.y > 0 ==>
                 patterns != [] && chunkSize.x > 0 && chunkSize.y > 0 &&
                 (AnyEligible(elements, entropy) || elements[0].values != [])
      modifies this
      ensures flags == old(flags) && patterns == old(patterns) && patternsTotal == old(patternsTotal)
      ensures chunkSize == old(chunkSize) && chunkFillSize == old(chunkFillSize)
      ensures Valid()
      ensures chunkFillSize.x == 0 || chunkFillSize.y == 0 ==> result == Err(NotFilled) && elements == old(elements)
      ensures result.Ok? ==> CompletelyCollapsed(elements) && elements != []
      ensures result == Err(TooManyContradictions) ==> ContradictionOccurred(elements) && failures == maxContradictions > 0
      ensures maxContradictions > 0 && result != Err(TooManyContradictions) ==> failures < maxContradictions
      ensures result.Err? ==> result.message in {NotFilled, TooManyContradictions, OutOfSteps}
      ensures CatalogShaped() && old(Reps.Shaped(elements, chunkSize)) ==> Reps.Shaped(elements, chunkSize)
    {
      failures := 0;
      if chunkFillSize.x == 0 || chunkFillSize.y == 0 {
        return Err(NotFilled), failures;
      }
      FilledNonEmpty(elements, chunkFillSize);
      var steps := fuel;
      while !CompletelyCollapsed(elements)
        invariant flags == old(flags) && patterns == old(patterns) && patternsTotal == old(patternsTotal)
        invariant chunkSize == old(chunkSize) && chunkFillSize == old(chunkFillSize)
        invariant Valid() && elements != []
        invariant AnyEligible(elements, entropy) || elements[0].values != []
        invariant CatalogShaped() && old(Reps.Shaped(elements, chunkSize)) ==> Reps.Shaped(elements, chunkSize)
        invariant maxContradictions == 0 || failures < maxContradictions
        decreases steps
      {
        if steps == 0 {
          return Err(OutOfSteps), failures;
        }
        steps := steps - 1;
        ghost var center, choice := CollapseOnce(entropy);
        if ContradictionOccurred(elements) {
          failures := failures + 1;
          if failures == maxContradictions {
            return Err(TooManyContradictions), failures;
          }
          Restart();
        }
      }
      return Ok(()), failures;
    }

    /** What `collapse_all` does after a contradiction: `fill` at the
        current output size, which cannot fail. */
    method Restart()
      requires Valid() && patterns != []
      requires chunkFillSize.x > 0 && chunkFillSize.y > 0 && chunkSize.x > 0 && chunkSize.y > 0
      modifies this
      ensures flags == old(flags) && patterns == old(patterns) && patternsTotal == old(patternsTotal)
      ensures chunkSize == old(chunkSize) && chunkFillSize == old(chunkFillSize)
      ensures Valid() && elements != []
      ensures forall i :: 0 <= i < |elements| ==> elements[i].values == patterns
      ensures CatalogShaped() ==> Reps.Shaped(elements, chunkSize)
    {
      FillTrueSize(chunkFillSize, chunkSize);
      var refilled := Fill(TrueSize(chunkFillSize, chunkSize));
      assert refilled.Ok?;
      FilledNonEmpty(elements, chunkFillSize);
    }

    /** `perfect_rep`, over the wave's own grid. */
    method PerfectRep() returns (result: Result<Grid>)
      requires Valid() && Reps.Shaped(elements, chunkSize)
      ensures result.Ok? <==> elements != [] && CompletelyCollapsed(elements)
      ensures result.Ok? ==> Reps.PerfectShown(result.value, elements, chunkFillSize, chunkSize)
    {
      result := Reps.PerfectRep(elements, chunkFillSize, chunkSize);
    }

    /** `current_rep`, over the wave's own grid. */
    method CurrentRep() returns (rep: seq<seq<seq<nat>>>)
      requires Valid() && Reps.Shaped(elements, chunkSize)
      ensures elements == [] ==> rep == []
      ensures elements != [] ==> Reps.CurrentShown(rep, elements, chunkFillSize, chunkSize)
    {
      rep := Reps.CurrentRep(elements, chunkFillSize, chunkSize);
    }
  }
}
