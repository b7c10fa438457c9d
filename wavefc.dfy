/** The current engine, `Wave` in wavefc/src/lib.rs: a catalog of patterns
    built by `analyze`, the chunk grid `fill` lays out, the search
    (`collapse_once`, `collapse_all`), the two projections, and the
    undo/redo history log.  Randomness is a nondeterministic draw (the
    `Search.Drawn` relation), the entropy a score function the caller
    supplies, and `collapse_all` runs on a step budget. */
module WaveFc {
  import opened Geometry
  import opened Arith
  import opened Adjacencies
  import opened Catalog
  import opened Engine
  import opened Search
  import Analysis
  import Reps
  import Seqs

  /** `Flags`. */
  datatype Flag = NoWeights | NoTransforms | NoHistory | PruneDeadweight

  /** A history entry: where a collapse happened, the id it chose, the ids
      the element held before, the iteration it happened at, and whether it
      has been undone. */
  datatype Record = Record(location: Vec2, chosenId: nat, previousIds: seq<nat>, iteration: nat, undone: bool)

  const EmptyCatalog := "The number of rules identified was zero. The input was flawed or the wave was configured incorrectly."
  const IterationMismatch := "This record's iteration does not match the internal state of the Wave"
  const NoElementThere := "Failed to find element at the specified location"
  const NoPreviousPatterns := "Failed to find any patterns for the record id. This is possible, but shouldn't happen with the `Wave` history functioning as intended."
  const NoChosenPattern := "Failed to find pattern for the record id"

  // ----------------------------------------------------------------------
  // Lookups (`iter().find`, `filter().last()`)

  function At(location: Vec2): Element -> bool {
    (e: Element) => e.position == location
  }

  function WithId(id: nat): Pattern -> bool {
    (p: Pattern) => p.id == id
  }

  function IdIn(ids: seq<nat>): Pattern -> bool {
    (p: Pattern) => p.id in ids
  }

  predicate IsUndone(r: Record) {
    r.undone
  }

  predicate IsActive(r: Record) {
    !r.undone
  }

  function Ids(values: seq<Pattern>): (r: seq<nat>)
    ensures |r| == |values| && forall k :: 0 <= k < |values| ==> r[k] == values[k].id
  {
    seq(|values|, k requires 0 <= k < |values| => values[k].id)
  }

  /** The record `collapse_once` logs for committing `e` to `choice`. */
  function NewRecord(e: Element, choice: Pattern, iteration: nat): Record {
    Record(e.position, choice.id, Ids(e.values), iteration, false)
  }

  /** `history` and `iterations` grew from `h0` and `n0` by successful
      collapses only: one record per collapse when `logging`, each stamped
      with the counter it was made at. */
  ghost predicate Logged(history: seq<Record>, iterations: nat, h0: seq<Record>, n0: nat, logging: bool) {
    n0 <= iterations &&
    if logging then
      |history| == |h0| + (iterations - n0) && history[..|h0|] == h0 &&
      forall i :: |h0| <= i < |history| ==> history[i].iteration == n0 + (i - |h0|)
    else history == h0
  }

  /** One more successful collapse keeps the log in step with the counter. */
  lemma LoggedStep(history: seq<Record>, iterations: nat, h0: seq<Record>, n0: nat, logging: bool, r: Record)
    requires Logged(history, iterations, h0, n0, logging) && r.iteration == iterations
    ensures Logged(history + (if logging then [r] else []), iterations + 1, h0, n0, logging)
  {
    if logging {
      var h := history + [r];
      assert h[..|h0|] == history[..|h0|];
    }
  }

  // ----------------------------------------------------------------------
  // `reverse_record` and `execute_record` on values

  /** The catalog patterns whose ids the record lists, in catalog order. */
  function Restored(patterns: seq<Pattern>, record: Record): seq<Pattern> {
    Seqs.Filter(patterns, IdIn(record.previousIds))
  }

  /** `reverse_record` would reach `iterations -= 1`, which needs a positive count. */
  predicate ReverseReachesDecrement(elements: seq<Element>, patterns: seq<Pattern>, iterations: nat, record: Record) {
    record.iteration == iterations && Seqs.First(elements, At(record.location)).Some? && Restored(patterns, record) != []
  }

  /** `reverse_record`: checked in order, the iteration, the element at the
      record's location and the previous patterns; then that element gets
      the previous patterns back and the iteration count drops by one. */
  function ReverseOutcome(elements: seq<Element>, patterns: seq<Pattern>, iterations: nat, record: Record): (r: Result<(seq<Element>, nat)>)
    requires ReverseReachesDecrement(elements, patterns, iterations, record) ==> iterations > 0
    ensures record.iteration != iterations ==> r == Err(IterationMismatch)
    ensures record.iteration == iterations && Seqs.First(elements, At(record.location)).None? ==> r == Err(NoElementThere)
    ensures record.iteration == iterations && Seqs.First(elements, At(record.location)).Some? && Restored(patterns, record) == [] ==>
              r == Err(NoPreviousPatterns)
    ensures r.Ok? <==> ReverseReachesDecrement(elements, patterns, iterations, record)
  {
    if record.iteration != iterations then Err(IterationMismatch)
    else match Seqs.First(elements, At(record.location))
      case None => Err(NoElementThere)
      case Some(k) =>
        var previous := Restored(patterns, record);
        if previous == [] then Err(NoPreviousPatterns)
        else Ok((elements[k := elements[k].(values := previous)], iterations - 1))
  }

  /** `execute_record`: checked in order, the iteration, the element at the
      record's location and the chosen pattern; then that element holds
      only the first catalog pattern with the chosen id. */
  function ExecuteOutcome(elements: seq<Element>, patterns: seq<Pattern>, iterations: nat, record: Record): (r: Result<seq<Element>>)
    ensures record.iteration != iterations ==> r == Err(IterationMismatch)
    ensures record.iteration == iterations && Seqs.First(elements, At(record.location)).None? ==> r == Err(NoElementThere)
    ensures record.iteration == iterations && Seqs.First(elements, At(record.location)).Some? && Seqs.First(patterns, WithId(record.chosenId)).None? ==>
              r == Err(NoChosenPattern)
    ensures r.Ok? <==> record.iteration == iterations && Seqs.First(elements, At(record.location)).Some? && Seqs.First(patterns, WithId(record.chosenId)).Some?
  {
    if record.iteration != iterations then Err(IterationMismatch)
    else match Seqs.First(elements, At(record.location))
      case None => Err(NoElementThere)
      case Some(k) =>
        match Seqs.First(patterns, WithId(record.chosenId))
        case None => Err(NoChosenPattern)
        case Some(j) => Ok(elements[k := elements[k].(values := [patterns[j]])])
  }

  /** A successful reverse gives the record's element exactly the catalog
      patterns with the listed ids, changes no other element, and keeps the
      layout and the positive counts. */
  lemma ReverseRestores(elements: seq<Element>, patterns: seq<Pattern>, iterations: nat, record: Record, fill: Vec2)
    requires ReverseReachesDecrement(elements, patterns, iterations, record) ==> iterations > 0
    requires ReverseOutcome(elements, patterns, iterations, record).Ok?
    ensures var k := Seqs.First(elements, At(record.location)).value;
            var after := ReverseOutcome(elements, patterns, iterations, record).value.0;
            |after| == |elements| && after[k].position == record.location &&
            (forall p :: p in after[k].values <==> p in patterns && p.id in record.previousIds) && after[k].values != [] &&
            (forall i :: 0 <= i < |elements| && i != k ==> after[i] == elements[i])
    ensures ReverseOutcome(elements, patterns, iterations, record).value.1 == iterations - 1
    ensures Layout(elements, fill) ==> Layout(ReverseOutcome(elements, patterns, iterations, record).value.0, fill)
    ensures CandidatesWeighted(elements) && Weighted(patterns) ==>
              CandidatesWeighted(ReverseOutcome(elements, patterns, iterations, record).value.0)
  {
    var k := Seqs.First(elements, At(record.location)).value;
    var after := ReverseOutcome(elements, patterns, iterations, record).value.0;
    assert after[k].values == Restored(patterns, record);
    forall p
      ensures p in after[k].values <==> p in patterns && p.id in record.previousIds
    {
      if p in after[k].values {
        var m :| 0 <= m < |after[k].values| && after[k].values[m] == p;
      }
      if p in patterns && p.id in record.previousIds {
        var m :| 0 <= m < |patterns| && patterns[m] == p;
      }
    }
  }

  /** A successful execute commits the record's element to the first
      catalog pattern with the chosen id, and changes nothing else. */
  lemma ExecuteCommits(elements: seq<Element>, patterns: seq<Pattern>, iterations: nat, record: Record, fill: Vec2)
    requires ExecuteOutcome(elements, patterns, iterations, record).Ok?
    ensures var k := Seqs.First(elements, At(record.location)).value;
            var after := ExecuteOutcome(elements, patterns, iterations, record).value;
            |after| == |elements| && after[k].position == record.location && IsCollapsed(after[k]) &&
            after[k].values[0].id == record.chosenId && after[k].values[0] in patterns &&
            (forall i :: 0 <= i < |elements| && i != k ==> after[i] == elements[i])
    ensures Layout(elements, fill) ==> Layout(ExecuteOutcome(elements, patterns, iterations, record).value, fill)
    ensures CandidatesWeighted(elements) && Weighted(patterns) ==>
              CandidatesWeighted(ExecuteOutcome(elements, patterns, iterations, record).value)
  {
  }

  /** Reversing a record leaves the iteration count one below the record's,
      so executing the same record straight after (what `redo_collapse`
      does after `undo_collapse`) always fails on the iteration check. */
  lemma RedoAfterUndoFails(elements: seq<Element>, patterns: seq<Pattern>, iterations: nat, record: Record)
    requires ReverseReachesDecrement(elements, patterns, iterations, record) ==> iterations > 0
    requires ReverseOutcome(elements, patterns, iterations, record).Ok?
    ensures var out := ReverseOutcome(elements, patterns, iterations, record).value;
            ExecuteOutcome(out.0, patterns, out.1, record.(undone := false)) == Err(IterationMismatch)
  {
  }

  /** `reverse_record` as its documentation intends: a record made at
      counter `n` describes the collapse that advanced the counter to
      `n + 1`, so it is reversed at `n + 1` and puts the counter back to `n`. */
  function ReverseIntended(elements: seq<Element>, patterns: seq<Pattern>, iterations: nat, record: Record): Result<(seq<Element>, nat)> {
    if record.iteration + 1 != iterations then Err(IterationMismatch)
    else match Seqs.First(elements, At(record.location))
      case None => Err(NoElementThere)
      case Some(k) =>
        var previous := Restored(patterns, record);
        if previous == [] then Err(NoPreviousPatterns)
        else Ok((elements[k := elements[k].(values := previous)], record.iteration))
  }

  /** `execute_record` as intended: replayed at the counter it was made at,
      and advancing the counter as the collapse did. */
  function ExecuteIntended(elements: seq<Element>, patterns: seq<Pattern>, iterations: nat, record: Record): Result<(seq<Element>, nat)> {
    if record.iteration != iterations then Err(IterationMismatch)
    else match Seqs.First(elements, At(record.location))
      case None => Err(NoElementThere)
      case Some(k) =>
        match Seqs.First(patterns, WithId(record.chosenId))
        case None => Err(NoChosenPattern)
        case Some(j) => Ok((elements[k := elements[k].(values := [patterns[j]])], iterations + 1))
  }

  /** With the intended counters, redoing right after an undo succeeds
      whenever the chosen pattern is in the catalog, and returns the counter
      to where it was before the undo, with the element collapsed to the
      chosen pattern and every other element as the undo left it. */
  lemma UndoThenRedo(elements: seq<Element>, patterns: seq<Pattern>, iterations: nat, record: Record)
    requires ReverseIntended(elements, patterns, iterations, record).Ok?
    requires Seqs.First(patterns, WithId(record.chosenId)).Some?
    ensures var undone := ReverseIntended(elements, patterns, iterations, record).value;
            var redone := ExecuteIntended(undone.0, patterns, undone.1, record);
            var k := Seqs.First(elements, At(record.location)).value;
            redone.Ok? && redone.value.1 == iterations &&
            |redone.value.0| == |elements| && redone.value.0[k].position == record.location &&
            redone.value.0[k].values == [patterns[Seqs.First(patterns, WithId(record.chosenId)).value]] &&
            forall i :: 0 <= i < |elements| && i != k ==> redone.value.0[i] == elements[i]
  {
    var undone := ReverseIntended(elements, patterns, iterations, record).value;
    var k := Seqs.First(elements, At(record.location)).value;
    Seqs.FirstIs(undone.0, At(record.location), Some(k));
  }

  /** With the intended counters, undoing right after a redo succeeds
      whenever the record lists previous patterns in the catalog, and puts
      the counter back. */
  lemma RedoThenUndo(elements: seq<Element>, patterns: seq<Pattern>, iterations: nat, record: Record)
    requires ExecuteIntended(elements, patterns, iterations, record).Ok?
    requires Restored(patterns, record) != []
    ensures var redone := ExecuteIntended(elements, patterns, iterations, record).value;
            var undone := ReverseIntended(redone.0, patterns, redone.1, record);
            var k := Seqs.First(elements, At(record.location)).value;
            undone.Ok? && undone.value.1 == iterations &&
            |undone.value.0| == |elements| && undone.value.0[k].values == Restored(patterns, record) &&
            forall i :: 0 <= i < |elements| && i != k ==> undone.value.0[i] == elements[i]
  {
    var redone := ExecuteIntended(elements, patterns, iterations, record).value;
    var k := Seqs.First(elements, At(record.location)).value;
    Seqs.FirstIs(redone.0, At(record.location), Some(k));
  }

  // ----------------------------------------------------------------------
  // The wave

  class Wave {
    var flags: seq<Flag>
    var patterns: seq<Pattern>
    var patternsTotal: nat
    var elements: seq<Element>
    var chunkSize: Vec2
    var chunkFillSize: Vec2
    var history: seq<Record>
    var iterations: nat

    /** The elements follow `fill`'s layout, and every pattern, in the
        catalog or among the candidates, has a positive count. */
    ghost predicate Valid()
      reads this
    {
      Layout(elements, chunkFillSize) && Weighted(patterns) && CandidatesWeighted(elements)
    }

    /** Every catalog pattern is a `chunkSize` grid. */
    ghost predicate CatalogShaped()
      reads this
    {
      forall p :: p in patterns ==> IsRect(p.contents, chunkSize.x, chunkSize.y)
    }

    /** `Wave::new`. */
    constructor ()
      ensures Valid()
      ensures flags == [] && patterns == [] && patternsTotal == 0 && elements == []
      ensures chunkSize == Vec2(0, 0) && chunkFillSize == Vec2(0, 0) && history == [] && iterations == 0
    {
      flags, patterns, patternsTotal, elements := [], [], 0, [];
      chunkSize, chunkFillSize, history, iterations := Vec2(0, 0), Vec2(0, 0), [], 0;
    }

    /** `analyze`: the catalog of the input's windows, with mirrored copies
        unless `NoTransforms` is set, pruned when `PruneDeadweight` is set;
        `patterns_total` is the number of windows. */
    method Analyze(input: Grid, chunk: Vec2, mode: BorderMode)
      requires Valid()
      requires chunk.x > 0 && chunk.y > 0 ==> Rect(input) && |input| > 0 && DimensionsOf(input).y > 0
      modifies this
      ensures flags == old(flags) && elements == old(elements) && chunkFillSize == old(chunkFillSize)
      ensures history == old(history) && iterations == old(iterations)
      ensures Valid()
      ensures patterns == Analysis.Analyzed(input, chunk, mode, NoTransforms in flags, PruneDeadweight in flags)
      ensures patternsTotal == |Analysis.OverlapList(input, chunk, mode)| && chunkSize == chunk
      ensures chunk.x > 0 && chunk.y > 0 ==> CatalogShaped()
    {
      var catalog, total := Analysis.AnalyzeCatalog(input, chunk, mode, NoTransforms in flags, PruneDeadweight in flags);
      patterns, patternsTotal, chunkSize := catalog, total, chunk;
    }

    /** `prune_lone_patterns`: keeps, in order, the patterns with at least
        five rules. */
    method PruneLonePatterns()
      requires Valid()
      modifies this
      ensures Valid()
      ensures patterns == Seqs.Filter(old(patterns), Analysis.Kept)
      ensures forall p :: p in patterns <==> p in old(patterns) && |p.rules| >= 5
      ensures old(CatalogShaped()) ==> CatalogShaped()
      ensures flags == old(flags) && patternsTotal == old(patternsTotal) && elements == old(elements)
      ensures chunkSize == old(chunkSize) && chunkFillSize == old(chunkFillSize)
      ensures history == old(history) && iterations == old(iterations)
    {
      Analysis.PrunedKeeps(patterns);
      patterns := Analysis.PruneLonePatterns(patterns);
    }

    /** `fill`: errors unless the output size is a multiple of the chunk
        size; otherwise the grid of `size / chunk` chunks, each holding the
        whole catalog. */
    method Fill(size: Vec2) returns (result: Result<()>)
      requires Valid() && chunkSize.x > 0 && chunkSize.y > 0
      modifies this
      ensures flags == old(flags) && patterns == old(patterns) && patternsTotal == old(patternsTotal)
      ensures chunkSize == old(chunkSize) && history == old(history) && iterations == old(iterations)
      ensures Valid()
      ensures size.x % chunkSize.x != 0 ==> result == Err(WidthNotFactor)
      ensures size.x % chunkSize.x == 0 && size.y % chunkSize.y != 0 ==> result == Err(HeightNotFactor)
      ensures result.Ok? <==> size.x % chunkSize.x == 0 && size.y % chunkSize.y == 0
      ensures result.Err? ==> elements == old(elements) && chunkFillSize == old(chunkFillSize)
      ensures result.Ok? ==> chunkFillSize == Vec2(size.x / chunkSize.x, size.y / chunkSize.y)
      ensures result.Ok? ==> |elements| == chunkFillSize.x * chunkFillSize.y
      ensures result.Ok? ==> forall i :: 0 <= i < |elements| ==> elements[i].values == patterns
      ensures result.Ok? && CatalogShaped() ==> Reps.Shaped(elements, chunkSize)
    {
      if size.x % chunkSize.x != 0 {
        return Err(WidthNotFactor);
      }
      if size.y % chunkSize.y != 0 {
        return Err(HeightNotFactor);
      }
      var fill := Vec2(size.x / chunkSize.x, size.y / chunkSize.y);
      elements := FillElements(patterns, fill);
      chunkFillSize := fill;
      MulIsProduct(fill.x, fill.y);
      return Ok(());
    }

    /** Since the point where the history was `h0` and the counter `n0`,
        every successful collapse advanced `iterations` by one and, when
        `NoHistory` is set, logged one record stamped with the counter it
        was made at; otherwise the history is untouched. */
    ghost predicate LoggedSince(h0: seq<Record>, n0: nat)
      reads this
    {
      Logged(history, iterations, h0, n0, NoHistory in flags)
    }

    /** `collapse_once`: nothing on an empty grid; otherwise a draw,
        logged when `NoHistory` is set (the check is inverted as written),
        then propagation.  The draw is returned for the specification. */
    method CollapseOnce(entropy: seq<Pattern> -> real) returns (ghost center: nat, ghost choice: Pattern)
      requires Valid()
      requires elements != [] ==> AnyEligible(elements, entropy) || elements[0].values != []
      modifies this
      ensures Valid()
      ensures old(elements) == [] ==> elements == [] && history == old(history)
      ensures old(elements) != [] ==>
                Drawn(old(elements), entropy, NoWeights in flags, center, choice) &&
                elements == Collapsed(old(elements), center, choice) &&
                history == old(history) + (if NoHistory in flags then [NewRecord(old(elements)[center], choice, iterations)] else [])
      ensures old(Reps.Shaped(elements, chunkSize)) ==> Reps.Shaped(elements, chunkSize)
      ensures flags == old(flags) && patterns == old(patterns) && patternsTotal == old(patternsTotal)
      ensures chunkSize == old(chunkSize) && chunkFillSize == old(chunkFillSize) && iterations == old(iterations)
    {
      center, choice := 0, Pattern(0, false, 0, [], []);
      if elements == [] {
        return;
      }
      WeightedDraws(elements, entropy);
      var next, c, pick := CollapseStep(elements, entropy, NoWeights in flags, chunkFillSize);
      center, choice := c, pick;
      if NoHistory in flags {
        history := history + [NewRecord(elements[c], pick, iterations)];
      }
      CollapsedKeeps(elements, entropy, NoWeights in flags, c, pick, chunkFillSize, chunkSize);
      elements := next;
    }

    /** `collapse_all`: errors on an empty catalog or an unfilled grid;
        otherwise collapses until every element holds one candidate,
        refilling, clearing the history and resetting `iterations` after
        each contradiction, and giving up when the number of
        contradictions reaches `maxContradictions`.  `failures` is the
        count the callback would see. */
    method CollapseAll(maxContradictions: nat, entropy: seq<Pattern> -> real, fuel: nat)
      returns (result: Result<()>, failures: nat)
      requires Valid()
      requires patterns != [] && elements != [] ==> AnyEligible(elements, entropy) || elements[0].values != []
      requires patterns != [] && chunkFillSize.x > 0 && chunkFillSize.y > 0 ==> chunkSize.x > 0 && chunkSize.y > 0
      modifies this
      ensures Valid()
      ensures old(patterns) == [] ==> result == Err(EmptyCatalog) && elements == old(elements)
      ensures old(patterns) != [] && (chunkFillSize.x == 0 || chunkFillSize.y == 0) ==>
                result == Err(NotFilled) && elements == old(elements)
      ensures result.Ok? ==> CompletelyCollapsed(elements) && elements != []
      ensures result == Err(TooManyContradictions) ==> ContradictionOccurred(elements) && failures == maxContradictions > 0
      ensures maxContradictions > 0 && result != Err(TooManyContradictions) ==> failures < maxContradictions
      ensures result.Ok? && failures == 0 ==> LoggedSince(old(history), old(iterations))
      ensures result.Ok? && failures > 0 ==> LoggedSince([], 0)
      ensures result.Err? ==> result.message in {EmptyCatalog, NotFilled, TooManyContradictions, OutOfSteps}
      ensures CatalogShaped() && old(Reps.Shaped(elements, chunkSize)) ==> Reps.Shaped(elements, chunkSize)
      ensures flags == old(flags) && patterns == old(patterns) && patternsTotal == old(patternsTotal)
      ensures chunkSize == old(chunkSize) && chunkFillSize == old(chunkFillSize)
    {
      failures := 0;
      if patterns == [] {
        return Err(EmptyCatalog), failures;
      }
      if chunkFillSize.x == 0 || chunkFillSize.y == 0 {
        return Err(NotFilled), failures;
      }
      FilledNonEmpty(elements, chunkFillSize);
      var steps := fuel;
      while !CompletelyCollapsed(elements)
        invariant Valid() && elements != []
        invariant AnyEligible(elements, entropy) || elements[0].values != []
        invariant CatalogShaped() && old(Reps.Shaped(elements, chunkSize)) ==> Reps.Shaped(elements, chunkSize)
        invariant flags == old(flags) && patterns == old(patterns) && patternsTotal == old(patternsTotal)
        invariant chunkSize == old(chunkSize) && chunkFillSize == old(chunkFillSize)
        invariant maxContradictions == 0 || failures < maxContradictions
        invariant failures == 0 ==> LoggedSince(old(history), old(iterations))
        invariant failures > 0 ==> LoggedSince([], 0)
        decreases steps
      {
        if steps == 0 {
          return Err(OutOfSteps), failures;
        }
        steps := steps - 1;
        var stop;
        failures, stop := Round(maxContradictions, entropy, failures, old(history), old(iterations));
        if stop {
          return Err(TooManyContradictions), failures;
        }
      }
      return Ok(()), failures;
    }

    /** One pass of the `collapse_all` loop: a collapse, then either the
        restart after a contradiction (`stop` when the contradictions reach
        `maxContradictions`) or the advance of `iterations`.  `h0` and `n0`
        are the history and counter at the start of the loop. */
    method Round(maxContradictions: nat, entropy: seq<Pattern> -> real, failures: nat, ghost h0: seq<Record>, ghost n0: nat)
      returns (failures': nat, stop: bool)
      requires Valid() && elements != [] && (AnyEligible(elements, entropy) || elements[0].values != [])
      requires patterns != [] && chunkFillSize.x > 0 && chunkFillSize.y > 0 && chunkSize.x > 0 && chunkSize.y > 0
      requires maxContradictions == 0 || failures < maxContradictions
      requires failures == 0 ==> LoggedSince(h0, n0)
      requires failures > 0 ==> LoggedSince([], 0)
      modifies this
      ensures flags == old(flags) && patterns == old(patterns) && patternsTotal == old(patternsTotal)
      ensures chunkSize == old(chunkSize) && chunkFillSize == old(chunkFillSize)
      ensures Valid() && elements != []
      ensures CatalogShaped() && old(Reps.Shaped(elements, chunkSize)) ==> Reps.Shaped(elements, chunkSize)
      ensures failures' == failures || failures' == failures + 1
      ensures stop ==> ContradictionOccurred(elements) && failures' == maxContradictions > 0
      ensures !stop ==> AnyEligible(elements, entropy) || elements[0].values != []
      ensures !stop ==> maxContradictions == 0 || failures' < maxContradictions
      ensures !stop && failures' == 0 ==> LoggedSince(h0, n0)
      ensures !stop && failures' > 0 ==> LoggedSince([], 0)
    {
      failures', stop := failures, false;
      ghost var h, n, prev := history, iterations, elements;
      ghost var center, choice := CollapseOnce(entropy);
      if ContradictionOccurred(elements) {
        failures' := failures + 1;
        if failures' == maxContradictions {
          return failures', true;
        }
        Restart();
      } else {
        if failures == 0 {
          LoggedStep(h, n, h0, n0, NoHistory in flags, NewRecord(prev[center], choice, n));
        } else {
          LoggedStep(h, n, [], 0, NoHistory in flags, NewRecord(prev[center], choice, n));
        }
        iterations := iterations + 1;
      }
    }

    /** What `collapse_all` does after a contradiction: `fill` at the
        current output size, which cannot fail, then the history is cleared
        and `iterations` reset. */
    method Restart()
      requires Valid() && patterns != []
      requires chunkFillSize.x > 0 && chunkFillSize.y > 0 && chunkSize.x > 0 && chunkSize.y > 0
      modifies this
      ensures flags == old(flags) && patterns == old(patterns) && patternsTotal == old(patternsTotal)
      ensures chunkSize == old(chunkSize) && chunkFillSize == old(chunkFillSize)
      ensures Valid() && elements != []
      ensures forall i :: 0 <= i < |elements| ==> elements[i].values == patterns
      ensures CatalogShaped() ==> Reps.Shaped(elements, chunkSize)
      ensures history == [] && iterations == 0
    {
      FillTrueSize(chunkFillSize, chunkSize);
      var refilled := Fill(TrueSize(chunkFillSize, chunkSize));
      assert refilled.Ok?;
      FilledNonEmpty(elements, chunkFillSize);
      ClearHistory();
      iterations := 0;
    }

    /** `perfect_rep`, over the wave's own grid. */
    method PerfectRep() returns (result: Result<Grid>)
      requires Valid() && Reps.Shaped(elements, chunkSize)
      ensures result.Ok? <==> elements != [] && CompletelyCollapsed(elements)
      ensures result.Ok? ==> Reps.PerfectShown(result.value, elements, chunkFillSize, chunkSize)
    {
      result := Reps.PerfectRep(elements, chunkFillSize, chunkSize);
    }

    /** `current_rep`, over the wave's own grid. */
    method CurrentRep() returns (rep: seq<seq<seq<nat>>>)
      requires Valid() && Reps.Shaped(elements, chunkSize)
      ensures elements == [] ==> rep == []
      ensures elements != [] ==> Reps.CurrentShown(rep, elements, chunkFillSize, chunkSize)
    {
      rep := Reps.CurrentRep(elements, chunkFillSize, chunkSize);
    }

    /** `clear_history`. */
    method ClearHistory()
      modifies this
      ensures history == []
      ensures flags == old(flags) && patterns == old(patterns) && patternsTotal == old(patternsTotal) && elements == old(elements)
      ensures chunkSize == old(chunkSize) && chunkFillSize == old(chunkFillSize) && iterations == old(iterations)
    {
      history := [];
    }

    /** `reverse_record`. */
    method ReverseRecord(record: Record) returns (result: Result<()>)
      requires Valid()
      requires ReverseReachesDecrement(elements, patterns, iterations, record) ==> iterations > 0
      modifies this
      ensures flags == old(flags) && patterns == old(patterns) && patternsTotal == old(patternsTotal) && history == old(history)
      ensures chunkSize == old(chunkSize) && chunkFillSize == old(chunkFillSize)
      ensures Valid()
      ensures var out := ReverseOutcome(old(elements), patterns, old(iterations), record);
              (out.Ok? ==> result == Ok(()) && elements == out.value.0 && iterations == out.value.1) &&
              (out.Err? ==> result == Err(out.message) && elements == old(elements) && iterations == old(iterations))
    {
      var out := ReverseOutcome(elements, patterns, iterations, record);
      if out.Err? {
        return Err(out.message);
      }
      ReverseRestores(elements, patterns, iterations, record, chunkFillSize);
      elements, iterations := out.value.0, out.value.1;
      return Ok(());
    }

    /** `execute_record`. */
    method ExecuteRecord(record: Record) returns (result: Result<()>)
      requires Valid()
      modifies this
      ensures Valid()
      ensures var out := ExecuteOutcome(old(elements), patterns, iterations, record);
              (out.Ok? ==> result == Ok(()) && elements == out.value) &&
              (out.Err? ==> result == Err(out.message) && elements == old(elements))
      ensures flags == old(flags) && patterns == old(patterns) && patternsTotal == old(patternsTotal) && history == old(history)
      ensures chunkSize == old(chunkSize) && chunkFillSize == old(chunkFillSize) && iterations == old(iterations)
    {
      var out := ExecuteOutcome(elements, patterns, iterations, record);
      if out.Err? {
        return Err(out.message);
      }
      ExecuteCommits(elements, patterns, iterations, record, chunkFillSize);
      elements := out.value;
      return Ok(());
    }

    /** `undo_collapse`: the last record not yet undone is marked undone
        (and stays marked when reversing it fails), then reversed, and on
        success removed when `removeRecord` is set.  Without such a record,
        nothing happens. */
    method UndoCollapse(removeRecord: bool) returns (result: Result<()>)
      requires Valid()
      requires Seqs.Last(history, IsActive).Some? ==>
                 (ReverseReachesDecrement(elements, patterns, iterations, history[Seqs.Last(history, IsActive).value]) ==> iterations > 0)
      modifies this
      ensures flags == old(flags) && patterns == old(patterns) && patternsTotal == old(patternsTotal)
      ensures chunkSize == old(chunkSize) && chunkFillSize == old(chunkFillSize)
      ensures Valid()
      ensures Seqs.Last(old(history), IsActive).None? ==>
                result == Ok(()) && elements == old(elements) && iterations == old(iterations) && history == old(history)
      ensures Seqs.Last(old(history), IsActive).Some? ==>
                var k := Seqs.Last(old(history), IsActive).value;
                var record := old(history)[k].(undone := true);
                var marked := old(history)[k := record];
                var out := ReverseOutcome(old(elements), patterns, old(iterations), record);
                (out.Err? ==> result == Err(out.message) && elements == old(elements) && iterations == old(iterations) && history == marked) &&
                (out.Ok? ==> result == Ok(()) && elements == out.value.0 && iterations == out.value.1 &&
                             history == if removeRecord then marked[..k] + marked[k + 1..] else marked)
    {
      var last := Seqs.Last(history, IsActive);
      if last.Some? {
        var k := last.value;
        var record := history[k].(undone := true);
        history := history[k := record];
        var reversed := ReverseRecord(record);
        if reversed.Err? {
          return reversed;
        }
        if removeRecord {
          history := history[..k] + history[k + 1..];
        }
      }
      return Ok(());
    }

    /** `redo_collapse`: the first undone record is marked done again and
        executed; without one, the last record is executed again; with an
        empty log, nothing happens. */
    method RedoCollapse() returns (result: Result<()>)
      requires Valid()
      modifies this
      ensures Valid()
      ensures Seqs.First(old(history), IsUndone).Some? ==>
                var k := Seqs.First(old(history), IsUndone).value;
                var record := old(history)[k].(undone := false);
                var out := ExecuteOutcome(old(elements), patterns, iterations, record);
                history == old(history)[k := record] &&
                (out.Ok? ==> result == Ok(()) && elements == out.value) &&
                (out.Err? ==> result == Err(out.message) && elements == old(elements))
      ensures Seqs.First(old(history), IsUndone).None? && old(history) != [] ==>
                var out := ExecuteOutcome(old(elements), patterns, iterations, old(history)[|old(history)| - 1]);
                history == old(history) &&
                (out.Ok? ==> result == Ok(()) && elements == out.value) &&
                (out.Err? ==> result == Err(out.message) && elements == old(elements))
      ensures old(history) == [] ==> result == Ok(()) && elements == old(elements) && history == []
      ensures flags == old(flags) && patterns == old(patterns) && patternsTotal == old(patternsTotal)
      ensures chunkSize == old(chunkSize) && chunkFillSize == old(chunkFillSize) && iterations == old(iterations)
    {
      var first := Seqs.First(history, IsUndone);
      if first.Some? {
        var k := first.value;
        var record := history[k].(undone := false);
        history := history[k := record];
        result := ExecuteRecord(record);
        if result.Err? {
          return;
        }
      } else if history != [] {
        result := ExecuteRecord(history[|history| - 1]);
        if result.Err? {
          return;
        }
      }
      return Ok(());
    }
  }
}
