# WaveFuncCollapse in Dafny

A model of the overlapping wave-function-collapse engine of the
WaveFuncCollapse repository, with proofs about it. There are three generations of the code:

- **`wavefc`**, the current engine (`wavefc/src/lib.rs`,
  `wavefc/src/helpers/mod.rs`): a `Wave` that
  - analyses an input grid into a catalog of chunk patterns with
    neighbour rules, counted and deduplicated, optionally with mirrored
    copies and pruning;
  - fills an output grid of chunk elements;
  - collapses one element at a time and propagates the choice outwards;
  - projects the grid back to cells;
  - keeps an undo/redo history of collapses.
- **`wfc`**, the older engine (`wfc/src/lib.rs`, `wfc/src/helpers.rs`,
  `wfc/src/stringtools.rs`): the same engine without history and pruning,
  plus the text front end. Text front end: a sample string becomes a grid of
  symbol ids and a symbol table, and grids of ids (or of candidate ids) are
  printed back.
- **The prototype** (`src/lib.rs`, `src/helpers.rs`): a `Coordinator` that
  learns entities and their neighbour validations from a text sample,
  plus the grid helpers `roll`, `all_possible_shifts`, `arrayify`,
  `overlapping_adjacencies` and `swap_layers`.

Grids are `seq<seq<nat>>` indexed `[x][y]`, as the source's
`Vec<Vec<usize>>`. Patterns, rules, elements and history records are
datatypes. The shared `Arc`/`Rc` pattern handles become values, because
clones are equal.

The code that updates state in place keeps its imperative form:
- both `Wave`s and the `Coordinator` are classes whose methods modify their
  fields;
- every loop is a `while`/`for` loop with invariants;
- each method is proved equal to a specification function or relation.

The properties are proved about those functions. They include:
- what `propagate` leaves: the candidates supported ring by ring from the
  collapsed chunk, with termination proved;
- that the catalog is sorted, without duplicate contents, and counts
  occurrences;
- that `perfect_rep`/`current_rep` show every chunk at its place;
- that the text sample round-trips through its symbol table;
- the undo/redo outcomes.

Module layout:
- `Geometry`, `Seqs`, `Orders`, `Arith`, `Grids` and `Text` are the helpers;
- `Adjacencies` holds the three chunk extractors;
- `Catalog` holds counting and deduplication;
- `Analysis` holds `analyze`;
- `Engine` and `Search` hold fill, selection and commit;
- `Propagation` holds `propagate`;
- `Reps` holds the two projections;
- `WaveFc.Wave` and `Wfc.Wave` are the two engine classes;
- `Rolls` holds `roll`/`all_possible_shifts`;
- `StringTools` holds the text front end;
- `Prototype` holds the prototype.

## Model

| member | source | states |
|---|---|---|
| Geometry.DimensionsOf | wavefc/src/helpers/mod.rs:16-21 | the width is the number of columns, zero exactly for an empty grid, whose height is then zero |
| Geometry.DimensionsOfRect | wfc/src/helpers.rs:8-13 | a non-empty rectangular `w` x `h` grid reports `(w, h)` |
| Geometry.NonegNeighbours | wavefc/src/helpers/mod.rs:123-136 | the result holds exactly the points at Manhattan distance 1 (all with non-negative coordinates), each once; one fewer per zero coordinate |
| Geometry.NonegNeighboursOfOrigin | wfc/src/helpers.rs:453-466 | the origin has only its right and lower neighbours, in that order |
| Geometry.OrthogDirection | wavefc/src/helpers/mod.rs:147-161 | 3 exactly when the point has a smaller x, 1 exactly when a larger x, 2 exactly when the same x and a smaller y, 0 exactly when the same x and a y not smaller |
| Geometry.DirectionOffsetInverse | wfc/src/helpers.rs:477-491 | for a neighbour, stepping from `p` in the direction `orthog_direction` names gives that neighbour back, and stepping in direction `d` lands on a neighbour whose direction is `d` |
| Seqs.RemoveIndexes | wavefc/src/helpers/mod.rs:138-145 | removing ascending indexes, each shifted by the number already removed, leaves the elements at the unlisted positions, `|v| - |indexes|` of them |
| Seqs.KeepIsFilter | wfc/src/helpers.rs:468-475 | removing exactly the positions whose element fails a test is filtering by that test |
| Seqs.KeepStep | wfc/src/helpers.rs:468-475 | one more removal at a later position deletes exactly the element at the shifted index `i - removed` |
| Seqs.FilterTwice | wavefc/src/lib.rs:600-614 | filtering is idempotent |
| Seqs.DedupBy | wavefc/src/lib.rs:669 | `Vec::dedup`: keeps the first element, leaves no two neighbours equal, adds nothing |
| Seqs.DedupBySubseq | wavefc/src/lib.rs:673 | `dedup` only deletes elements, keeping order |
| Seqs.DedupByCovers | wavefc/src/lib.rs:673 | every deleted element equals a kept one |
| Seqs.DedupMembers | wavefc/src/lib.rs:669 | plain `dedup` keeps exactly the same members, as a subsequence without equal neighbours |
| Seqs.SortBy | wavefc/src/lib.rs:668 | the stable sort returns a permutation of its input |
| Seqs.SortSorted | wavefc/src/lib.rs:672 | under a total preorder the result is sorted |
| Seqs.ReverseReverse | wavefc/src/lib.rs:529-539 | reversing twice is the identity |
| Seqs.First | wavefc/src/lib.rs:744-773 | `iter().find`: the first index that passes, or none passes |
| Seqs.Last | wavefc/src/lib.rs:694-716 | `filter().last()`: the last index that passes, or none passes |
| Orders.LexTotalOrder | wavefc/src/lib.rs:850-854 | the lexicographic order of `Vec`s over a total order is a total order |
| Orders.GridLeTotalOrder | wavefc/src/lib.rs:850-854 | the derived order on cells, rows and grids is total |
| Orders.SortedUnique | wavefc/src/lib.rs:672-673 | two sorted sequences without repeats that hold the same entries are equal |
| Grids.Arrayify | wfc/src/helpers.rs:87-116 | `arrayify` makes `size.x` columns, column `c` holding the values located in column `c`, in input order |
| Grids.ArrayifyRowMajor | src/helpers.rs:87-116 | arrayifying a row-major list gives, in column `c`, row `r`'s entry at position `r` |
| Grids.ArrayifyTwelve | src/helpers/tests.rs:3-27 | the arrayify test: column `c` of the twelve-value input is `[3c, 3c+1, 3c+2]` |
| Grids.XySwap | wfc/src/helpers.rs:419-437 | `xy_swap` transposes: `out[c][r] == input[r][c]`, `|input[0]|` columns of `|input|` entries |
| Grids.PushRowMajor | wfc/src/helpers.rs:428-432 | the row-major push loop lists every `(value, (c, r))` row by row |
| Grids.SwapLayers | src/helpers.rs:315-334 | column `c` gathers entry `c` of every row long enough to have it, in row order |
| Grids.SwapLayersTransposes | src/helpers.rs:315-334 | on a rectangular input `swap_layers` is the transpose |
| Grids.Window | wavefc/src/helpers/mod.rs:46-54 | the window at an origin is a `cw` x `ch` grid |
| Adjacencies.PushWindow | wavefc/src/helpers/mod.rs:98-106 | the copy loop builds exactly the window at the origin |
| Adjacencies.WaveNeighbours | wavefc/src/helpers/mod.rs:56-109 | the neighbour loop gives, for each direction, the window there when it lies inside the input and nothing otherwise |
| Adjacencies.AdjacencyAtNeighbour | wavefc/src/helpers/mod.rs:56-109 | four neighbours; neighbour `i` is present exactly when its window lies inside, and is then that window |
| Adjacencies.WaveColumn | wavefc/src/helpers/mod.rs:45-117 | the inner root loop for column `x` |
| Adjacencies.WaveAdjacencies | wavefc/src/helpers/mod.rs:31-121 | `adjacencies` scans every origin where a chunk fits, x-major; an empty chunk gives nothing |
| Adjacencies.WaveAdjacenciesShape | wavefc/src/helpers/mod.rs:44-116 | the list has `(W-cw+1)(H-ch+1)` entries; the one for origin `(x, y)` sits at `x(H-ch+1)+y` and is that origin's adjacency |
| Adjacencies.OriginAndEdgeInsideIsInside | wfc/src/helpers.rs:359-372 | the origin-and-edge test accepts exactly the windows that lie inside the grid |
| Adjacencies.InfringesAtBorder | wfc/src/helpers.rs:307-313 | the infringement test fires exactly when a window starts in column or row 0 or ends on or past the last column or row, so a window that only touches the border counts |
| Adjacencies.ChunkContent | wfc/src/helpers.rs:273-278 | the root content mapped through `arrayify` is the window at the point |
| Adjacencies.OverlapRoot | wfc/src/helpers.rs:263-393 | one point of `overlapping_adjacencies`: nothing when the chunk does not fit or an Exclude neighbour infringes, else the root with its in-grid neighbours |
| Adjacencies.OverlapColumn | wfc/src/helpers.rs:264-394 | the inner point loop for column `x` |
| Adjacencies.OverlappingAdjacencies | wfc/src/helpers.rs:236-398 | the list is the x-major scan of every point |
| Adjacencies.OverlapAgreesWithWave | wfc/src/helpers.rs:282-387 | at a point where the chunk fits, the older extractor's adjacency is `adjacencies`' one |
| Adjacencies.ClampIsWave | wfc/src/helpers.rs:236-398 | in Clamp mode `overlapping_adjacencies` returns the same list as `adjacencies` with direction 0 = +y, and nothing when the chunk does not fit |
| Adjacencies.ExcludeKeeps | wfc/src/helpers.rs:303-318 | as written, Exclude keeps a root exactly when `cw+1 <= x`, `x+2cw < W`, `ch+1 <= y` and `y+2ch < H` |
| Adjacencies.ExcludeMembers | wfc/src/helpers.rs:236-398 | in Exclude mode the list holds exactly the adjacencies of those roots |
| Adjacencies.ExcludeTooSmall | wfc/src/helpers.rs:303-318 | a grid narrower than `3cw+2` or shorter than `3ch+2` yields nothing in Exclude mode |
| Adjacencies.PrototypeRow | src/helpers.rs:179-309 | the prototype's inner loop for row `y` |
| Adjacencies.PrototypeAdjacencies | src/helpers.rs:151-313 | the prototype scans y-major over every point |
| Adjacencies.PrototypeClampLength | src/helpers.rs:151-313 | in Clamp mode it returns `(H-ch+1)(W-cw+1)` adjacencies |
| Adjacencies.PrototypeClampIndex | src/helpers.rs:178-179 | the adjacency for origin `(x, y)` sits at `y(W-cw+1)+x` |
| Adjacencies.PrototypeExample | src/helpers/tests.rs:67-96 | the test input yields nine adjacencies, the first with right and down neighbours only |
| Adjacencies.ExampleWindows | src/helpers/tests.rs:67-96 | the windows the test's first adjacency is made of |
| Adjacencies.ExampleFirstAdjacency | src/helpers/tests.rs:67-96 | the first adjacency of the test grid, computed from the code's `[x][y]` windows |
| Catalog.RuleLeTotalOrder | wavefc/src/lib.rs:856-866 | the derived `Ord` of `Rule` (direction, then content) is a total order |
| Catalog.PatternLeTotalPreorder | wavefc/src/lib.rs:844-854 | ordering patterns by contents is a total preorder whose ties have equal contents |
| Catalog.CountPatterns | wavefc/src/lib.rs:621-644 | the nested loop computes `CountAll` |
| Catalog.CountedIsOccurrences | wavefc/src/lib.rs:621-644 | with distinct ids, a non-transform pattern's count grows by the number of non-transform patterns with its contents, itself excepted; nothing but the count changes |
| Catalog.CountAllKeeps | wavefc/src/lib.rs:621-644 | counting changes counts only |
| Catalog.AddMissing | wavefc/src/lib.rs:654-659 | new rules are appended after the old ones; the result holds exactly the rules of both |
| Catalog.MergeRules | wavefc/src/lib.rs:650-662 | the merge loop absorbs the rules of every other pattern with equal contents |
| Catalog.MergePhase | wavefc/src/lib.rs:649-663 | each pattern gets its merged rules; nothing else changes |
| Catalog.TidyRules | wavefc/src/lib.rs:667-670 | `sort` then `dedup` keeps the same rules, sorted, each once |
| Catalog.DedupPatterns | wavefc/src/lib.rs:646-674 | `dedup_patterns` computes `Deduplicated` |
| Catalog.DedupSorted | wavefc/src/lib.rs:672 | the result is sorted by contents |
| Catalog.DedupRules | wavefc/src/lib.rs:649-670 | each returned pattern holds exactly the rules of all input patterns with its contents, sorted, each once |
| Catalog.DedupCovers | wavefc/src/lib.rs:672-673 | every input contents survives |
| Catalog.DedupFrom | wavefc/src/lib.rs:646-674 | every returned pattern is a merged input pattern |
| Catalog.CatalogDistinct | wavefc/src/lib.rs:646-674 | after counting, no two returned patterns share contents |
| Catalog.DedupCounts | wavefc/src/lib.rs:621-674 | after counting and deduplicating fresh patterns, a pattern's count is the number of input patterns with its contents |
| Catalog.CountedCovers | wavefc/src/lib.rs:621-674 | counting then deduplicating keeps every input contents |
| Catalog.CountedFrom | wavefc/src/lib.rs:621-674 | and adds none |
| Catalog.DedupIdempotent | wavefc/src/lib.rs:646-674 | a catalog that is already sorted, without repeated contents and with tidy rules is left unchanged |
| Catalog.TidyIdentity | wavefc/src/lib.rs:667-670 | tidy rules are left unchanged |
| Catalog.ExampleOrder | wavefc/src/tests.rs:43-46 | the test's three patterns count and deduplicate to two, `[[0]]` first |
| Catalog.ExampleCounts | wavefc/src/tests.rs:49-54 | exactly one of them has count 2 |
| Catalog.ExampleRules | wavefc/src/tests.rs:47 | each keeps exactly one rule |
| Catalog.ExampleFresh | wavefc/src/tests.rs:19-41 | the test patterns are fresh with ids 0, 1, 2 |
| Catalog.ExampleCounted | wavefc/src/tests.rs:19-43 | what counting the test patterns gives |
| Analysis.RulesOfMembers | wavefc/src/lib.rs:484-490 | a built pattern has rule `(d, c)` exactly when its adjacency has neighbour `c` in direction `d` |
| Analysis.NeighbourRules | wavefc/src/lib.rs:484-490 | the rule loop computes `RulesOf` |
| Analysis.BuildPatterns | wavefc/src/lib.rs:481-493 | one pattern per adjacency, in order |
| Analysis.BuiltFresh | wavefc/src/lib.rs:481-493 | built patterns are fresh (count 1, not transforms) with id = position |
| Analysis.MirrorCells | wavefc/src/lib.rs:506-527 | the three mirror images move cell `(x, y)` to `(W-1-x, y)`, `(x, H-1-y)` and `(W-1-x, H-1-y)` |
| Analysis.TransfInvolutions | wavefc/src/lib.rs:529-553 | `x_transf` and `y_transf` undo themselves and commute |
| Analysis.TransfDirections | wavefc/src/lib.rs:529-553 | `x_transf` swaps directions 1 and 3 and keeps 0 and 2; `y_transf` swaps 0 and 2 and keeps 1 and 3 |
| Analysis.CombinationComposes | wavefc/src/lib.rs:498-572 | the combined copy is the x mirror of the y mirror, in either order |
| Analysis.MirrorTwice | wavefc/src/lib.rs:498-572 | mirroring twice on one axis gives back contents and rules |
| Analysis.TransformsAt | wavefc/src/lib.rs:498-572 | pattern `k` contributes its x, y and combined mirror at `3k`, `3k+1`, `3k+2` |
| Analysis.TransformIds | wavefc/src/lib.rs:498-572 | the copies are transforms numbered on from the id counter |
| Analysis.TransformRules | wavefc/src/lib.rs:529-553 | the per-rule loop maps the rules |
| Analysis.TransformCopies | wavefc/src/lib.rs:498-572 | the transform loop computes `Transforms` |
| Analysis.AnalyzePatterns | wfc/src/lib.rs:391-506 | `analyze` stores the catalog of the overlapping adjacencies and their number |
| Analysis.CatalogRoots | wavefc/src/lib.rs:468-583 | without transforms the catalog is sorted, without repeated contents, and holds exactly the roots' contents |
| Analysis.CatalogCounts | wavefc/src/lib.rs:468-583 | a catalog pattern's count is the number of roots with its contents |
| Analysis.CatalogRules | wavefc/src/lib.rs:468-583 | its rules are exactly the neighbours seen next to those roots, sorted, each once |
| Analysis.NoTransformCatalog | wavefc/src/lib.rs:565-572 | without transforms the second count-and-dedup changes nothing |
| Analysis.TransformedShape | wavefc/src/lib.rs:565-572 | with transforms the catalog is still sorted with tidy rules |
| Analysis.TransformedCovers | wavefc/src/lib.rs:498-572 | every mirror image of a root is in the catalog |
| Analysis.TransformedFromRoots | wavefc/src/lib.rs:498-572 | every catalog pattern is a root or a mirror image of one |
| Analysis.CatalogShape | wavefc/src/lib.rs:468-583 | every catalog pattern is chunk-sized |
| Analysis.CatalogWeights | wavefc/src/lib.rs:468-583 | every catalog pattern has a positive count |
| Analysis.LoneIndexes | wavefc/src/lib.rs:591-606 | the ascending indexes of the patterns with fewer than five rules |
| Analysis.PruneLonePatterns | wavefc/src/lib.rs:585-615 | `prune_lone_patterns` filters by "at least five rules" |
| Analysis.PrunedKeeps | wavefc/src/lib.rs:585-615 | pruning keeps, in order, exactly the patterns with at least five rules |
| Analysis.AnalyzeCatalog | wavefc/src/lib.rs:468-583 | `analyze` with pruning: the stored catalog, the adjacency total, positive counts, chunk-sized contents |
| Engine.FillElements | wavefc/src/lib.rs:453-460 | `fill` lays out one element per chunk position, x-major, each holding every pattern |
| Engine.LayoutIndex | wavefc/src/lib.rs:453-460 | the element for position `p` sits at `p.x * fill.y + p.y` and is the only one there |
| Engine.LayoutFind | wavefc/src/lib.rs:453-460 | every in-grid position has exactly one element |
| Engine.FillTrueSize | wavefc/src/lib.rs:171-176 | `fill(true_size())` gives back the same chunk grid size |
| Engine.SelectElements | wavefc/src/lib.rs:234-254 | the candidates are the uncollapsed elements of greatest positive entropy, or element 0 when there is none |
| Engine.Commit | wavefc/src/lib.rs:256-301 | the chosen element is a candidate, and its value is a candidate of positive count unless weights are off; the element keeps only that value |
| Search.CollapseStep | wavefc/src/lib.rs:229-305 | `collapse_once` makes a legal draw and leaves the propagated grid `Collapsed` |
| Search.WeightedDraws | wavefc/src/lib.rs:269-276 | when every candidate has a positive count the weighted draw cannot fail |
| Search.CollapsedShrinks | wavefc/src/lib.rs:298-301 | after a step the chosen element holds only the choice, positions stay, and every other element keeps a subsequence of its candidates |
| Search.CollapsedFrom | wavefc/src/lib.rs:298-424 | no element gains a candidate |
| Search.CollapsedKeeps | wavefc/src/lib.rs:229-305 | a step keeps the layout, positive counts and chunk shapes |
| Propagation.FindIndexes | wavefc/src/lib.rs:341-353 | the indexes of the elements at the ring's locations |
| Propagation.CheckValid | wavefc/src/lib.rs:370-392 | a value is valid exactly when some adjacent reference has the rule pointing at it with its contents |
| Propagation.PruneValues | wavefc/src/lib.rs:355-399 | pruning keeps, in order, the valid values |
| Propagation.ValidToSupported | wavefc/src/lib.rs:370-392 | a value the reference check accepts at a ring-`k` element is supported by a kept candidate one ring closer |
| Propagation.SupportedToValid | wavefc/src/lib.rs:370-392 | and a supported value is accepted by the reference check |
| Propagation.PruneElement | wavefc/src/lib.rs:355-399 | the pruning of one ring-`k` element returns its final candidates |
| Propagation.PruneIsFinal | wavefc/src/lib.rs:355-399 | pruning a ring-`k` element gives its final candidates, on its first visit or a repeat one |
| Propagation.FinalShrinks | wavefc/src/lib.rs:307-424 | propagation keeps a subsequence of each element's candidates, and leaves the collapsed one alone |
| Propagation.FinalMembers | wavefc/src/lib.rs:355-399 | a value survives exactly when some neighbour one ring closer kept a candidate whose rule allows it |
| Propagation.FinalNextToChoice | wavefc/src/lib.rs:355-399 | next to the collapsed element, a survivor is allowed by the chosen pattern's rules |
| Propagation.NextLocs | wavefc/src/lib.rs:402-422 | the next locations are the neighbours of the pruned elements that are not banned |
| Propagation.NextLocsAt | wavefc/src/lib.rs:402-422 | those are exactly the in-grid locations one ring further out |
| Propagation.StartState | wavefc/src/lib.rs:307-340 | the loop starts with the collapsed element as the only reference, its neighbours as locations and itself banned |
| Propagation.NextState | wavefc/src/lib.rs:341-422 | one ring keeps the loop invariant: processed rings hold their final candidates, references are the last ring's |
| Propagation.PruneRing | wavefc/src/lib.rs:341-400 | the elements of a ring get their final candidates, and references and neighbour lists are collected for them |
| Propagation.NextRing | wavefc/src/lib.rs:341-422 | one iteration of the outer loop advances the invariant by a ring |
| Propagation.Propagate | wavefc/src/lib.rs:307-424 | `propagate` terminates and leaves every element exactly its final candidates |
| Reps.Place | wavefc/src/lib.rs:160-168 | arrayifying the placed pairs shows every block at its place |
| Reps.TiledShows | wavefc/src/lib.rs:129-169 | the output columns are the tiled chunks |
| Reps.PushGrid | wavefc/src/lib.rs:150-157 | the column and cell loops push a block's values with their output locations, column by column |
| Reps.PerfectBlocks | wavefc/src/lib.rs:140-158 | each element contributes its single pattern at its chunk corner |
| Reps.PerfectPairs | wavefc/src/lib.rs:140-158 | the element loop pushes exactly those blocks' pairs |
| Reps.PerfectCells | wavefc/src/lib.rs:129-169 | output cell `(Col, Row)` is the element's pattern cell `(x, y)`; every column is `fill.y * chunk.y` long |
| Reps.PerfectGrid | wavefc/src/lib.rs:129-169 | `perfect_rep` of a collapsed grid shows it |
| Reps.PerfectRep | wavefc/src/lib.rs:129-169 | `Ok` exactly when there are elements and all are collapsed, and then the output shows the grid |
| Reps.CellRepSpec | wavefc/src/lib.rs:195-210 | a cell lists the values its candidates have there, ascending, each once |
| Reps.CellList | wavefc/src/lib.rs:195-205 | the value loop for one cell |
| Reps.CellGrid | wavefc/src/lib.rs:190-212 | an element's block is a chunk-sized grid of listed cells |
| Reps.PushCells | wavefc/src/lib.rs:190-214 | the cell loops of one element push its block's pairs |
| Reps.PushCellColumn | wavefc/src/lib.rs:192-213 | the inner cell loop, one column |
| Reps.CurrentPairs | wavefc/src/lib.rs:186-216 | the element loop pushes every element's block |
| Reps.CurrentCells | wavefc/src/lib.rs:178-219 | output cell `(Col, Row)` lists the values the element's candidates have at `(x, y)` |
| Reps.CurrentGrid | wavefc/src/lib.rs:178-219 | `current_rep` shows the grid |
| Reps.CurrentRep | wavefc/src/lib.rs:178-219 | empty for an empty grid; otherwise it shows every element's candidate cells in place |
| Rolls.RollPass | src/helpers.rs:28-52 | one pass of the shift loop |
| Rolls.Roll | src/helpers.rs:21-54 | `roll` is `shifts` passes of the step as written |
| Rolls.RollTest | src/helpers/tests.rs:29-65 | the roll test's three steps on a 4 x 4 grid |
| Rolls.RollStepNotCyclicOnWideGrid | src/helpers.rs:36-47 | on a 2 x 3 grid one x step gives `[[1,0,1],[4,3,4]]`, not the cyclic shift `[[2,0,1],[5,3,4]]` |
| Rolls.RollIsCyclicOnSquare | wfc/src/helpers.rs:21-54 | on a square grid `roll` is the cyclic shift |
| Rolls.CyclicNEntries | src/helpers.rs:21-54 | after `k` cyclic steps entry `(r, c)` comes from `((r - k) mod H, (c - k) mod W)` on the rolled axes |
| Rolls.FullTurn | src/helpers.rs:21-54 | rolling a square grid as many times as it is long gives it back |
| Rolls.AllPossibleShifts | src/helpers.rs:57-82 | as written, `3n` outputs, every one equal to the input |
| Rolls.AllShiftsAt | src/helpers.rs:57-82 | as intended, output `a * n + s` is the grid rolled `s + 1` times along axis choice `a` |
| Text.LinesHaveNoFeeds | wfc/src/stringtools.rs:13 | no line that `lines()` gives holds a line feed |
| Text.LinesOfTerminated | src/lib.rs:132-141 | lines without line feeds and without a trailing carriage return, each followed by a feed, split back into themselves |
| StringTools.InternChar | wfc/src/stringtools.rs:25-31 | a char is looked up in the table or added with the next id; the row keeps encoding the chars seen |
| StringTools.InternLine | wfc/src/stringtools.rs:18-32 | a line's shown chars are encoded, and the table grows by its new symbols in order |
| StringTools.InternLines | wfc/src/stringtools.rs:13-33 | every line is encoded against the table of all symbols in first-appearance order |
| StringTools.DeconstructString | wfc/src/stringtools.rs:3-36 | the source map is that table, and the sample is the transposed grid of ids |
| StringTools.SymbolsFacts | wfc/src/stringtools.rs:25-31 | the symbols are distinct and are exactly the chars of the text |
| StringTools.TableFacts | wfc/src/stringtools.rs:25-31 | ids are 0, 1, 2, ... and no char gets two ids |
| StringTools.TableInOrder | wfc/src/stringtools.rs:25-31 | lower ids go to chars that appear earlier |
| StringTools.SampleDecodes | wfc/src/stringtools.rs:3-36 | every id of the sample stands for the char it replaced |
| StringTools.RoundTrip | wfc/src/stringtools.rs:3-134 | decoding the sample through its map gives back the shown lines, cut to the first line's length |
| StringTools.RenderRow | wfc/src/stringtools.rs:107-125 | the id loop renders each decoded char with its colour and `", "` |
| StringTools.ReconstructString | wfc/src/stringtools.rs:86-134 | `reconstruct_string` renders the decoded rows of the transposed input |
| StringTools.ReconstructedFrame | wfc/src/stringtools.rs:95-131 | the output starts with the bold code exactly when bold, and ends with the reset code exactly when bold or coloured |
| StringTools.RenderedStart | wfc/src/stringtools.rs:110-124 | with colour the first cell opens with an escape code; without, the first char is followed by a comma |
| StringTools.MaxOfGrid | wfc/src/stringtools.rs:45-53 | the maximum loop computes `GridMax` |
| StringTools.GridMaxIsMax | wfc/src/stringtools.rs:45-53 | `GridMax` is at least every cell's candidate count, and equals some cell's count unless it is 0 |
| StringTools.RenderWipCell | wfc/src/stringtools.rs:62-79 | the padding loop renders one cell |
| StringTools.WipCellShape | wfc/src/stringtools.rs:62-79 | a cell is `(`, the sorted decoded chars, spaces up to the maximum, then `)` |
| StringTools.RenderWipRow | wfc/src/stringtools.rs:61-80 | the cell loop renders one row |
| StringTools.ConstructWipString | wfc/src/stringtools.rs:38-84 | `construct_wip_string` renders every row after a newline, padded to the maximum count |
| StringTools.WipStartsWithNewline | wfc/src/stringtools.rs:55-59 | the output starts with a newline |
| Prototype.OrthogonalNeighbours | src/lib.rs:13-21 | four slots |
| Prototype.NeighboursAdjacent | src/lib.rs:13-21 | up is missing exactly on row 0, left exactly on column 0; every neighbour present is one step away; every location one step away is listed with its direction |
| Prototype.NeighboursOfOneOne | src/lib.rs:198-209 | the test: the neighbours of (1, 1) |
| Prototype.AddUnknownValidation | src/lib.rs:82-89 | the validations gain `v` and nothing else; identifier and weight stay; no duplicates appear |
| Prototype.AddIdempotent | src/lib.rs:82-89 | adding the same validation twice is adding it once |
| Prototype.Coordinator.constructor | src/lib.rs:109-111 | no superpositions, no entities, size 0 by 0 |
| Prototype.Coordinator.ExistingEntity | src/lib.rs:179-181 | the first entity with that identifier, present exactly when some entity has it |
| Prototype.Coordinator.Observe | src/lib.rs:156-169 | one validation is absorbed into the entities |
| Prototype.Coordinator.ProcessCell | src/lib.rs:145-172 | the char's neighbour observations are absorbed in order |
| Prototype.Coordinator.ProcessLine | src/lib.rs:144-173 | a line's chars are processed in order |
| Prototype.Coordinator.ProcessSample | src/lib.rs:131-177 | height is the line count and width the first line's length (as `u32`); all observations are absorbed; identifiers stay distinct |
| Prototype.Coordinator.PushColumn | src/lib.rs:115-120 | the inner loop appends column `x`'s superpositions |
| Prototype.Coordinator.PopulateSuperpositions | src/lib.rs:113-122 | one superposition per location, x-major, each holding every entity |
| Prototype.PopulatedLayout | src/lib.rs:113-122 | `width * height` superpositions; entry `i` is at `(i / h, i % h)` |
| Prototype.AbsorbOne | src/lib.rs:156-169 | one observation adds the entity if new, adds one to its weight and the validation to its set |
| Prototype.AbsorbAllFinds | src/lib.rs:141-174 | an entity exists afterwards exactly when it existed or was observed |
| Prototype.AbsorbAllWeight | src/lib.rs:156-169 | its weight grows by the number of its observations |
| Prototype.AbsorbAllValidations | src/lib.rs:156-169 | its validations are the old ones plus its observations |
| Prototype.AbsorbAllDistinct | src/lib.rs:156-169 | no second entity is created for a char |
| Prototype.AbsorbAllAppend | src/lib.rs:141-174 | absorbing two lists is absorbing one then the other |
| Prototype.CellObservations | src/lib.rs:144-172 | a char makes an observation exactly when one of its neighbours lies inside the sample |
| Prototype.CellMentions | src/lib.rs:144-172 | a cell observes char `c` exactly when it is `c` and has a neighbour inside the sample |
| Prototype.LineMentions | src/lib.rs:144-173 | the same for a line |
| Prototype.SampleMentions | src/lib.rs:141-174 | the same for the sample |
| Prototype.ProcessedEntities | src/lib.rs:131-177 | from nothing, the entities are one per char with a neighbour, weighted by observation count, with exactly their observations as validations |
| Prototype.ExistingEntityTest | src/lib.rs:213-221 | the test: 'A' is found, 'B' is not |
| Prototype.SampleLcs | src/lib.rs:223-238 | the tests: "LCS" gives three entities and three superpositions |
| WaveFc.ReverseOutcome | wavefc/src/lib.rs:744-773 | mismatched iteration, missing element and no previous patterns are the three errors, in that order; success exactly when none applies |
| WaveFc.ExecuteOutcome | wavefc/src/lib.rs:784-811 | mismatched iteration, missing element and unknown chosen pattern are the three errors; success exactly when none applies |
| WaveFc.ReverseRestores | wavefc/src/lib.rs:744-773 | a reversal gives the element back exactly the recorded previous patterns, changes nothing else, decrements the iteration, and keeps layout and counts |
| WaveFc.ExecuteCommits | wavefc/src/lib.rs:784-811 | an execution collapses the element to the recorded pattern, changes nothing else, and keeps layout and counts |
| WaveFc.RedoAfterUndoFails | wavefc/src/lib.rs:744-811 | after a reversal, executing the same record fails with an iteration mismatch, because the counter moved |
| WaveFc.UndoThenRedo | wavefc/src/lib.rs:718-811 | with the counters as intended, a redo right after an undo succeeds, restores the counter and collapses the element to the chosen pattern, leaving the rest as it was |
| WaveFc.RedoThenUndo | wavefc/src/lib.rs:683-716 | with the counters as intended, an undo right after a redo succeeds, restores the counter and gives the element back its recorded previous patterns |
| WaveFc.Wave.constructor | wavefc/src/lib.rs:45-57 | an empty wave |
| WaveFc.Wave.Analyze | wavefc/src/lib.rs:468-583 | stores the catalog (pruned when asked), the adjacency total and the chunk size; grid and history stay |
| WaveFc.Wave.PruneLonePatterns | wavefc/src/lib.rs:585-615 | keeps exactly the patterns with at least five rules, in order |
| WaveFc.Wave.Fill | wavefc/src/lib.rs:426-465 | width and height errors when the size is not a multiple of the chunk; on success one element per chunk holding every pattern |
| WaveFc.Wave.CollapseOnce | wavefc/src/lib.rs:229-305 | a legal draw then propagation; a record is appended exactly when the `NoHistory` flag is set, as the code does |
| WaveFc.Wave.CollapseAll | wavefc/src/lib.rs:75-116 | errors for an empty catalog or an unfilled grid; `Ok` only with every element collapsed; the contradiction error exactly when the failures reach `max_contradictions` (otherwise fewer failures); on `Ok` the counter and history advanced one step per successful collapse since the call or, after a contradiction, since the last restart |
| WaveFc.Wave.Round | wavefc/src/lib.rs:93-108 | one loop pass: a collapse, then a restart and one more failure after a contradiction, stopping at `max_contradictions`, or the counter and history advanced by one step |
| WaveFc.LoggedStep | wavefc/src/lib.rs:282-295 | a successful collapse logs one record stamped with the counter it was made at, and the counter moves on by one, keeping the log in step |
| WaveFc.Wave.Restart | wavefc/src/lib.rs:103-105 | refills the same grid with every pattern, clears the history and resets the iteration count; the catalog and sizes stay |
| WaveFc.Wave.PerfectRep | wavefc/src/lib.rs:129-169 | as `Reps.PerfectRep`, over the wave's grid |
| WaveFc.Wave.CurrentRep | wavefc/src/lib.rs:178-219 | as `Reps.CurrentRep`, over the wave's grid |
| WaveFc.Wave.ClearHistory | wavefc/src/lib.rs:679-681 | empties the history only |
| WaveFc.Wave.ReverseRecord | wavefc/src/lib.rs:744-773 | applies `ReverseOutcome`, changing nothing on error |
| WaveFc.Wave.ExecuteRecord | wavefc/src/lib.rs:784-811 | applies `ExecuteOutcome`, changing nothing on error |
| WaveFc.Wave.UndoCollapse | wavefc/src/lib.rs:694-716 | reverses the last active record, marking it undone, and removes it when asked; nothing to undo is `Ok` |
| WaveFc.Wave.RedoCollapse | wavefc/src/lib.rs:723-736 | re-executes the first undone record, or the last record when none is undone |
| Wfc.Wave.constructor | wfc/src/lib.rs:35-54 | an empty wave |
| Wfc.Wave.Analyze | wfc/src/lib.rs:391-506 | stores the catalog, the adjacency total and the chunk size |
| Wfc.Wave.Fill | wfc/src/lib.rs:353-389 | as the current engine's `fill` |
| Wfc.Wave.CollapseOnce | wfc/src/lib.rs:198-245 | a legal draw then propagation |
| Wfc.Wave.CollapseAll | wfc/src/lib.rs:56-93 | an unfilled grid error; `Ok` only with every element collapsed; the contradiction error exactly when the failures reach `max_contradictions` (otherwise fewer failures) |
| Wfc.Wave.Restart | wfc/src/lib.rs:81 | refills the same grid with every pattern; the catalog and sizes stay |
| Wfc.Wave.PerfectRep | wfc/src/lib.rs:103-143 | as `Reps.PerfectRep` |
| Wfc.Wave.CurrentRep | wfc/src/lib.rs:152-196 | as `Reps.CurrentRep` |

## Left out

- Randomness (`thread_rng`, `choose`, `choose_weighted`) is a nondeterministic choice: any selectable element and any candidate, of positive count unless weights are off.
- Entropy (`Element::entropy`, an `f32` with `log2`) is a score function the caller supplies; the rule "an empty element scores 0" is kept.
- The `debug` flag, `set_debug` and every `println!` are output only.
- The `collapse_all` callback only observes the wave.
- `serde` serialisation of `Wave` (wavefc/src/lib.rs:939-999) is not modelled.
- The application crates `wavefc-app` and `wavefc-cli`, `src/main.rs`, `src/sample.rs`, `src/location.rs`, `src/error.rs`, `src/errors.rs` and the benches are not part of this model.
- The Wrap border mode of the prototype (src/helpers.rs:235-271) is not modelled; only Exclude and Clamp.
- `rotate_ninety`, `mirror`, `chunkify` and the older `adjacencies` are commented out in wfc/src/helpers.rs and are not modelled.
- `Coordinator::collapse_once` (src/lib.rs:124-129) has an empty body and is not modelled.
- `entities_found` and `superpositions_count` are plain length getters; the tests read `|entities|` and `|superpositions|` directly.
- `Entity::increment_weight` works on an `f32`; the model counts it as a `nat` weight that starts at 1.
- The prototype's `Direction` diagonals are never produced and are left out.
- Text.Lines follows `str::lines`: it drops one `\r` before each `\n`, and a final `\n` gives no empty last line.
- WaveFc.Wave.CollapseAll: the loop runs on a `fuel` step budget and returns a model-only `OutOfSteps` error when it runs out, because the source's loop has no termination argument.
- Wfc.Wave.CollapseAll: the same step budget.
- Wfc.Wave.CollapseAll: it requires a non-empty catalog and a drawable grid once filled, because the older engine has no empty-catalog check and panics in `choose` on an empty element.
- WaveFc.Wave.CollapseAll: it requires the first element drawable when no element is eligible, because `choose` panics on an empty element.
- WaveFc.Wave.CollapseOnce: the same requirement, as `debug_assert!` at wavefc/src/lib.rs:267 states.
- Search.CollapseStep: the same requirement, and with weights on, a candidate of positive count in every selectable element, because `choose_weighted(..).unwrap()` panics when all weights are zero.
- Engine.Commit: the same requirement.
- WaveFc.Wave.Fill: it requires a non-zero chunk size, because the source divides by it and panics otherwise.
- Wfc.Wave.Fill: the same requirement.
- WaveFc.Wave.ReverseRecord: it requires a positive iteration count on the path that decrements it, because `usize` subtraction at 0 panics.
- WaveFc.Wave.UndoCollapse: the same requirement for the record it reverses.
- WaveFc.Wave.RedoCollapse: keeps the counter check as written, so it states the mismatch the source runs into (see `## Findings`); the intended counters are modelled on values only, by `WaveFc.ReverseIntended` and `WaveFc.ExecuteIntended`, and are not wired into the wave's undo and redo.
- WaveFc.ReverseOutcome: the same requirement.
- WaveFc.Wave.PerfectRep: it requires every element's candidates to be chunk-sized, as `analyze` guarantees. The source would index out of bounds otherwise.
- WaveFc.Wave.CurrentRep: the same requirement.
- Wfc.Wave.PerfectRep: the same requirement.
- Wfc.Wave.CurrentRep: the same requirement.
- StringTools.DeconstructString: it requires at least one line, and no line shorter than the first after whitespace is dropped, because `xy_swap` panics otherwise.
- StringTools.ReconstructString: it requires a non-empty, fitting input whose ids are all in the map, because `unwrap` and `xy_swap` panic otherwise.
- StringTools.ConstructWipString: the same requirement.
- Grids.XySwap: it requires a non-empty input whose first row is no longer than any other, because `xy_swap` indexes `input[0]` and every row up to that length.
- Grids.SwapLayers: it requires a non-empty input, because `swap_layers` reads `input[0]`.
- Grids.Arrayify: it requires every location's column to be below `size.x`, because `arrayify` indexes the column vector by it.
- Adjacencies.WaveAdjacencies: it requires a rectangular input at least one chunk wide and high, because the origin bound `size - chunk + 1` underflows `usize` otherwise.
- Adjacencies.OverlappingAdjacencies: it requires a rectangular, non-empty input, because the source indexes the first column and every row.
- Adjacencies.PrototypeAdjacencies: the same requirement.
- Rolls.Roll: it requires the wrap targets as written to be in range (`RollSafe`): with x shifting, the rows at least as long as the row count, and the converse with y shifting. The source indexes out of bounds otherwise.
- Rolls.AllPossibleShifts: it requires a square input, because the pass that shifts both axes indexes out of bounds on any other non-empty grid.
- Wfc.Wave.CollapseOnce: it requires the first element drawable when no element is eligible, as the current engine does.
- Prototype.Coordinator.ProcessSample: `width` and `height` are `u32` casts and are taken modulo 2^32. Entity weights are counted as `nat`, not accumulated as `f32`.
- The test at wavefc/src/tests.rs:5-15 counts one collapsed element after a `collapse_once`. Propagation may also collapse neighbours, so only the choice and its legality are stated (WaveFc.Wave.CollapseOnce).
- The hashing half of the catalog test (wavefc/src/tests.rs:56-83) and its second pattern set (wavefc/src/tests.rs:85-132) are not restated: the concrete merge, sort and dedup of that set is beyond the solver budget, and the general lemmas `Catalog.DedupRules`, `Catalog.DedupCounts` and `Catalog.CatalogDistinct` state what it samples.
- The neighbour assertions of the prototype test (src/helpers/tests.rs:83-95) are not restated, because the code as written does not meet them. With the direction offsets of src/helpers.rs:196-213 (0 is `y - cy`, 1 is `x + cx`, 2 is `y + cy`, 3 is `x - cx`), `Adjacencies.PrototypeExample` proves that the first root's direction-1 neighbour is the window to its right, `[[1,1],[2,1]]`, and its direction-2 neighbour is the window below, `[[1,1],[0,1]]`. The test expects `[[1,1],[2,1]]` under direction 2 and `[[1,0],[1,1]]`, the window below in row-major form, under direction 1. Its assertion on the second root (line 93) expects `[[1,1],[0,0]]` under direction 2, where the same offsets give the window below that root, `[[0,1],[0,1]]`. The test reads as written for a transposed frame and is treated as stale; only its count (nine adjacencies) and first origin are restated.
- The test `swap_layers_works` (src/helpers/tests.rs:98-118) is covered by Grids.SwapLayersTransposes in general and is not restated on its data.
- `found_directions` in `prune_lone_patterns` (wavefc/src/lib.rs:596-603) is computed and never used, so pruning depends on the rule count alone.

## Findings

| source | as written | input that shows it | evidently intended | confidence | as-written member | corrected member |
|---|---|---|---|---|---|---|
| src/helpers.rs:36-47 (also wfc/src/helpers.rs:36-47) | the column index wraps to `dimensions_of().x - 1`, the number of rows minus one; the row index wraps to the first row's length minus one | `roll([[0,1,2],[3,4,5]], 1, true, false)` gives `[[1,0,1],[4,3,4]]` | each axis wraps with its own length, a cyclic shift: `[[2,0,1],[5,3,4]]` | not executed | Rolls.RollStepNotCyclicOnWideGrid | Rolls.CyclicNEntries |
| src/helpers.rs:73-75 | each of the `shift_count + 1` passes calls `roll` with `shifts` (the side length `n`) instead of 1 | any `n` x `n` grid: every one of the `3n` outputs equals the input | output `a*n + s` is the grid rolled `s + 1` steps along the axis choice `a` | not executed | Rolls.AllPossibleShifts | Rolls.AllShiftsAt |
| wavefc/src/lib.rs:744-811 | `reverse_record` decrements `iterations` but `execute_record` neither increments it nor accepts the lower value; both demand `record.iteration == iterations` | any record that `undo_collapse` reverses: the `redo_collapse` that follows fails with the iteration mismatch (and a record logged by `collapse_all`, which moves the counter past it, cannot be undone at all) | `redo_collapse` replays the undone collapse, as its documentation says: undo checks the counter the collapse reached and puts it back, redo checks the record's counter and moves it on | not executed | WaveFc.RedoAfterUndoFails | WaveFc.UndoThenRedo |
