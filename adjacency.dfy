/** Overlapping chunk extraction: every `cw` x `ch` window of the input
    (the root) together with its four neighbouring windows, one chunk away
    in each direction.  Three versions exist:
      - `adjacencies` (wavefc/src/helpers/mod.rs), roots x-major over the
        origins where a window fits, direction 0 is +y when `up_is_greater`;
      - `overlapping_adjacencies` (wfc/src/helpers.rs), which the current
        engine calls, roots x-major over every cell, direction 0 is +y;
      - `overlapping_adjacencies` of the prototype (src/helpers.rs), roots
        y-major over every cell, direction 0 is -y.
    Grids are indexed `[x][y]`. */
module Adjacencies {
  import opened Geometry
  import opened Grids
  import opened Arith
  import Seqs

  type Grid = seq<seq<nat>>

  /** A root window and its neighbours for directions 0 (up), 1 (right),
      2 (down) and 3 (left). */
  datatype Adjacency = Adjacency(root: Grid, neighbours: seq<Option<Grid>>)

  /** Border handling of `overlapping_adjacencies`. */
  datatype BorderMode = Exclude | Clamp

  /** The grid is rectangular, `|input|` columns of `input[0].len()` cells. */
  ghost predicate Rect(input: Grid) {
    IsRect(input, |input|, DimensionsOf(input).y)
  }

  /** Signed origin of neighbour `i` of the chunk at (x, y): one chunk away
      along y for 0 and 2 (upwards is +y when `upIsGreater`), along +x for
      1 and -x for 3. */
  function NeighbourOrigin(x: nat, y: nat, cw: nat, ch: nat, i: nat, upIsGreater: bool): (int, int)
    requires i < 4
  {
    if i == 0 then (x, if upIsGreater then y + ch else y - ch)
    else if i == 1 then (x + cw, y)
    else if i == 2 then (x, if upIsGreater then y - ch else y + ch)
    else (x - cw, y)
  }

  /** The window at a signed origin lies inside a `w` x `h` grid. */
  predicate WindowInside(o: (int, int), cw: nat, ch: nat, w: nat, h: nat) {
    o.0 >= 0 && o.1 >= 0 && o.0 + cw <= w && o.1 + ch <= h
  }

  lemma WindowInsideFits(input: Grid, o: (int, int), cw: nat, ch: nat)
    requires Rect(input) && WindowInside(o, cw, ch, |input|, DimensionsOf(input).y)
    ensures Fits(input, o.0 as nat, o.1 as nat, cw, ch)
  {
  }

  // ----------------------------------------------------------------------
  // `adjacencies` (wavefc/src/helpers/mod.rs)

  /** The adjacency `adjacencies` records for the root at (x, y): neighbour
      `i` is present exactly when its window lies inside the input. */
  function AdjacencyAt(input: Grid, x: nat, y: nat, cw: nat, ch: nat, upIsGreater: bool): Adjacency
    requires Rect(input) && Fits(input, x, y, cw, ch)
  {
    var w, h := |input|, DimensionsOf(input).y;
    Adjacency(
      Window(input, x, y, cw, ch),
      seq(4, i requires 0 <= i < 4 =>
        var o := NeighbourOrigin(x, y, cw, ch, i, upIsGreater);
        if WindowInside(o, cw, ch, w, h) then Some(Window(input, o.0 as nat, o.1 as nat, cw, ch)) else None))
  }

  /** The step of the root loop of `adjacencies` at (x, y). */
  function AdjacencyCell(input: Grid, cw: nat, ch: nat, upIsGreater: bool): (nat, nat) --> seq<Adjacency>
  {
    (x: nat, y: nat) requires Rect(input) && Fits(input, x, y, cw, ch) =>
      [AdjacencyAt(input, x, y, cw, ch, upIsGreater)]
  }

  /** Copies the window at (ox, oy) column by column, as the nested push
      loops of `adjacencies` do. */
  method PushWindow(input: Grid, ox: nat, oy: nat, cw: nat, ch: nat) returns (data: Grid)
    requires Fits(input, ox, oy, cw, ch)
    ensures data == Window(input, ox, oy, cw, ch)
  {
    data := [];
    var ix := 0;
    while ix < cw
      invariant 0 <= ix <= cw && |data| == ix
      invariant forall i :: 0 <= i < ix ==> data[i] == Window(input, ox, oy, cw, ch)[i]
    {
      var column := [];
      var iy := 0;
      while iy < ch
        invariant 0 <= iy <= ch && |column| == iy
        invariant forall j :: 0 <= j < iy ==> column[j] == input[ox + ix][oy + j]
      {
        column := column + [input[ox + ix][oy + iy]];
        iy := iy + 1;
      }
      data := data + [column];
      ix := ix + 1;
    }
  }

  /** The neighbour loop of `adjacencies` for the root at (x, y). */
  method WaveNeighbours(input: Grid, x: nat, y: nat, cw: nat, ch: nat, upIsGreater: bool)
    returns (neighbours: seq<Option<Grid>>)
    requires Rect(input) && Fits(input, x, y, cw, ch)
    ensures neighbours == AdjacencyAt(input, x, y, cw, ch, upIsGreater).neighbours
  {
    var w, h := |input|, DimensionsOf(input).y;
    ghost var spec := AdjacencyAt(input, x, y, cw, ch, upIsGreater).neighbours;
    neighbours := [];
    var i := 0;
    while i < 4
      invariant 0 <= i <= 4 && |neighbours| == i
      invariant neighbours == spec[..i]
    {
      var o := NeighbourOrigin(x, y, cw, ch, i, upIsGreater);
      if o.0 < 0 || o.1 < 0 || o.0 + cw > w || o.1 + ch > h {
        neighbours := neighbours + [None];
      } else {
        var data := PushWindow(input, o.0 as nat, o.1 as nat, cw, ch);
        neighbours := neighbours + [Some(data)];
      }
      assert spec[..i + 1] == spec[..i] + [spec[i]];
      i := i + 1;
    }
  }

  /** Every origin where the chunk fits is a singleton step of the root loop. */
  lemma WaveCells(input: Grid, cw: nat, ch: nat, upIsGreater: bool)
    requires Rect(input) && cw <= |input| && ch <= DimensionsOf(input).y
    ensures forall x, y :: 0 <= x < |input| - cw + 1 && 0 <= y < DimensionsOf(input).y - ch + 1 ==>
              AdjacencyCell(input, cw, ch, upIsGreater).requires(x, y) &&
              AdjacencyCell(input, cw, ch, upIsGreater)(x, y) == [AdjacencyAt(input, x, y, cw, ch, upIsGreater)]
  {
    forall x: nat, y: nat | x < |input| - cw + 1 && y < DimensionsOf(input).y - ch + 1
      ensures Fits(input, x, y, cw, ch)
    {
      assert forall i :: x <= i < x + cw ==> |input[i]| == DimensionsOf(input).y;
    }
  }

  /** The inner loop of `adjacencies`: the roots of column `x`. */
  method WaveColumn(input: Grid, x: nat, cw: nat, ch: nat, upIsGreater: bool) returns (col: seq<Adjacency>)
    requires Rect(input) && cw <= |input| && ch <= DimensionsOf(input).y && x < |input| - cw + 1
    ensures col == Column(x, DimensionsOf(input).y - ch + 1, AdjacencyCell(input, cw, ch, upIsGreater))
  {
    var ny := DimensionsOf(input).y - ch + 1;
    ghost var f := AdjacencyCell(input, cw, ch, upIsGreater);
    WaveCells(input, cw, ch, upIsGreater);
    col := [];
    var y := 0;
    while y < ny
      invariant 0 <= y <= ny
      invariant col == Column(x, y, f)
    {
      WaveCellAt(input, cw, ch, upIsGreater, x, y);
      var root := PushWindow(input, x, y, cw, ch);
      var neighbours := WaveNeighbours(input, x, y, cw, ch, upIsGreater);
      assert Column(x, y + 1, f) == Column(x, y, f) + f(x, y);
      col := col + [Adjacency(root, neighbours)];
      y := y + 1;
    }
  }

  /** `adjacencies`: empty for a zero chunk dimension; otherwise one
      adjacency per origin where the chunk fits, x-major.  The loop bounds
      `size - chunk + 1` underflow unless the chunk fits in the input. */
  method WaveAdjacencies(input: Grid, chunk: Vec2, upIsGreater: bool) returns (list: seq<Adjacency>)
    requires chunk.x > 0 && chunk.y > 0 ==>
               Rect(input) && chunk.x <= |input| && chunk.y <= DimensionsOf(input).y
    ensures chunk.x == 0 || chunk.y == 0 ==> list == []
    ensures chunk.x > 0 && chunk.y > 0 ==>
              list == Scan(|input| - chunk.x + 1, DimensionsOf(input).y - chunk.y + 1,
                           AdjacencyCell(input, chunk.x, chunk.y, upIsGreater))
  {
    if chunk.x == 0 || chunk.y == 0 {
      return [];
    }
    var size := DimensionsOf(input);
    var cw, ch := chunk.x, chunk.y;
    var nx, ny := size.x - cw + 1, size.y - ch + 1;
    ghost var f := AdjacencyCell(input, cw, ch, upIsGreater);
    WaveCells(input, cw, ch, upIsGreater);
    list := [];
    var x := 0;
    while x < nx
      invariant 0 <= x <= nx
      invariant list == Scan(x, ny, f)
    {
      var col := WaveColumn(input, x, cw, ch, upIsGreater);
      assert Scan(x + 1, ny, f) == Scan(x, ny, f) + Column(x, ny, f);
      list := list + col;
      x := x + 1;
    }
  }

  /** The neighbour `i` of a recorded adjacency is present exactly when the
      window one chunk away in direction `i` lies inside the input, and it is
      that window. */
  lemma AdjacencyAtNeighbour(input: Grid, x: nat, y: nat, cw: nat, ch: nat, upIsGreater: bool, i: nat)
    requires Rect(input) && Fits(input, x, y, cw, ch) && i < 4
    ensures var a := AdjacencyAt(input, x, y, cw, ch, upIsGreater);
            var o := NeighbourOrigin(x, y, cw, ch, i, upIsGreater);
            |a.neighbours| == 4 &&
            (a.neighbours[i].Some? <==> WindowInside(o, cw, ch, |input|, DimensionsOf(input).y)) &&
            (a.neighbours[i].Some? ==> a.neighbours[i].value == Window(input, o.0 as nat, o.1 as nat, cw, ch))
  {
  }

  /** The step of the root loop at a fitting origin records `AdjacencyAt`. */
  lemma WaveCellAt(input: Grid, cw: nat, ch: nat, upIsGreater: bool, x: nat, y: nat)
    requires Rect(input) && cw <= |input| && ch <= DimensionsOf(input).y
    requires x < |input| - cw + 1 && y < DimensionsOf(input).y - ch + 1
    ensures Fits(input, x, y, cw, ch)
    ensures AdjacencyCell(input, cw, ch, upIsGreater)(x, y)[0] == AdjacencyAt(input, x, y, cw, ch, upIsGreater)
  {
    WaveCells(input, cw, ch, upIsGreater);
  }

  /** `adjacencies` yields (W - cw + 1) * (H - ch + 1) adjacencies, x-major:
      the one at index `x * (H - ch + 1) + y` is recorded for the root at
      (x, y), and its root is the window there. */
  lemma WaveAdjacenciesShape(input: Grid, cw: nat, ch: nat, upIsGreater: bool, x: nat, y: nat)
    requires cw > 0 && ch > 0 && Rect(input) && cw <= |input| && ch <= DimensionsOf(input).y
    requires x < |input| - cw + 1 && y < DimensionsOf(input).y - ch + 1
    ensures var nx, ny := |input| - cw + 1, DimensionsOf(input).y - ch + 1;
            var list := Scan(nx, ny, AdjacencyCell(input, cw, ch, upIsGreater));
            |list| == Mul(nx, ny) &&
            Flat(x, y, ny) < |list| &&
            list[Flat(x, y, ny)] == AdjacencyCell(input, cw, ch, upIsGreater)(x, y)[0]
    ensures Fits(input, x, y, cw, ch)
    ensures AdjacencyCell(input, cw, ch, upIsGreater)(x, y)[0] == AdjacencyAt(input, x, y, cw, ch, upIsGreater)
  {
    var nx, ny := |input| - cw + 1, DimensionsOf(input).y - ch + 1;
    var f := AdjacencyCell(input, cw, ch, upIsGreater);
    WaveCells(input, cw, ch, upIsGreater);
    ScanIndex(nx, ny, f, x, y);
    ScanLength(nx, ny, f);
    WaveCellAt(input, cw, ch, upIsGreater, x, y);
  }

  // ----------------------------------------------------------------------
  // `overlapping_adjacencies` (wfc/src/helpers.rs and src/helpers.rs)

  /** The "corner infringement" test of `overlapping_adjacencies`, with
      `size_indexed = size - 1`: the far edge is below the chunk size, or
      the origin is beyond `size_indexed - chunk`. */
  predicate Infringes(o: (int, int), cw: nat, ch: nat, w: nat, h: nat) {
    var edge := (o.0 + cw - 1, o.1 + ch - 1);
    (edge.0 < cw || edge.1 < ch) || (o.0 > (w - 1) - cw || o.1 > (h - 1) - ch)
  }

  /** The Clamp test: neither the origin nor the far edge lies outside `[0, size - 1]`. */
  predicate OriginAndEdgeInside(o: (int, int), cw: nat, ch: nat, w: nat, h: nat) {
    var edge := (o.0 + cw - 1, o.1 + ch - 1);
    !(o.0 < 0 || o.1 < 0 || o.0 > w - 1 || o.1 > h - 1) &&
    !(edge.0 < 0 || edge.1 < 0 || edge.0 > w - 1 || edge.1 > h - 1)
  }

  /** For a non-empty chunk the Clamp test says exactly that the window lies inside. */
  lemma OriginAndEdgeInsideIsInside(o: (int, int), cw: nat, ch: nat, w: nat, h: nat)
    requires cw > 0 && ch > 0
    ensures OriginAndEdgeInside(o, cw, ch, w, h) <==> WindowInside(o, cw, ch, w, h)
  {
  }

  /** For a non-empty chunk, a neighbour infringes exactly when its origin
      touches coordinate 0 or its window reaches the last column or row:
      windows that lie inside but touch the border infringe too. */
  lemma InfringesAtBorder(o: (int, int), cw: nat, ch: nat, w: nat, h: nat)
    requires cw > 0 && ch > 0
    ensures Infringes(o, cw, ch, w, h) <==> (o.0 < 1 || o.1 < 1 || o.0 + cw >= w || o.1 + ch >= h)
  {
  }

  /** In Exclude mode the root at (x, y) is scrapped when some neighbour infringes. */
  predicate Scrapped(x: nat, y: nat, cw: nat, ch: nat, mode: BorderMode, upIsGreater: bool, w: nat, h: nat) {
    mode == Exclude && exists i :: 0 <= i < 4 && Infringes(NeighbourOrigin(x, y, cw, ch, i, upIsGreater), cw, ch, w, h)
  }

  /** The adjacency `overlapping_adjacencies` builds for the root at (x, y):
      the neighbours that pass the Clamp test. */
  function OverlapAdjacency(input: Grid, x: nat, y: nat, cw: nat, ch: nat, upIsGreater: bool): Adjacency
    requires Rect(input) && Fits(input, x, y, cw, ch)
  {
    var w, h := |input|, DimensionsOf(input).y;
    Adjacency(
      Window(input, x, y, cw, ch),
      seq(4, i requires 0 <= i < 4 =>
        var o := NeighbourOrigin(x, y, cw, ch, i, upIsGreater);
        if OriginAndEdgeInside(o, cw, ch, w, h) then Some(Window(input, o.0 as nat, o.1 as nat, cw, ch)) else None))
  }

  /** What `overlapping_adjacencies` pushes for the cell (x, y): nothing when
      the chunk does not fit there (its far edge passes `size - 1`), nothing
      when the root is scrapped, and otherwise the root's adjacency. */
  function OverlapAt(input: Grid, x: nat, y: nat, cw: nat, ch: nat, mode: BorderMode, upIsGreater: bool): seq<Adjacency>
    requires Rect(input) && cw > 0 && ch > 0
  {
    var w, h := |input|, DimensionsOf(input).y;
    if x + cw - 1 > w - 1 || y + ch - 1 > h - 1 then []
    else if Scrapped(x, y, cw, ch, mode, upIsGreater, w, h) then []
    else
      assert Fits(input, x, y, cw, ch);
      [OverlapAdjacency(input, x, y, cw, ch, upIsGreater)]
  }

  /** The step of the x-major cell loop of wfc/src/helpers.rs at (x, y). */
  function OverlapCell(input: Grid, cw: nat, ch: nat, mode: BorderMode): (nat, nat) --> seq<Adjacency>
  {
    (x: nat, y: nat) requires Rect(input) && cw > 0 && ch > 0 => OverlapAt(input, x, y, cw, ch, mode, true)
  }

  /** The step of the y-major cell loop of src/helpers.rs at (y, x). */
  function PrototypeCell(input: Grid, cw: nat, ch: nat, mode: BorderMode): (nat, nat) --> seq<Adjacency>
  {
    (y: nat, x: nat) requires Rect(input) && cw > 0 && ch > 0 => OverlapAt(input, x, y, cw, ch, mode, false)
  }

  /** The entry at (x + ox, y + oy) of the input, indexed by (y, x) as the
      y-major chunk-point list enumerates it. */
  function ChunkEntry(input: Grid, ox: nat, oy: nat, cw: nat, ch: nat): (nat, nat) -> nat
  {
    (y: nat, x: nat) => if x + ox < |input| && y + oy < |input[x + ox]| then input[x + ox][y + oy] else 0
  }

  /** Maps the y-major chunk points (x, y) to `(input[x + ox][y + oy], (x, y))`
      and arrayifies them with the chunk size: the window at (ox, oy). */
  method ChunkContent(input: Grid, ox: nat, oy: nat, cw: nat, ch: nat) returns (arr: Grid)
    requires Fits(input, ox, oy, cw, ch)
    ensures arr == Window(input, ox, oy, cw, ch)
  {
    var g := ChunkEntry(input, ox, oy, cw, ch);
    var content := PushRowMajor(g, ch, cw);
    forall i | 0 <= i < |content| ensures content[i].1.x < cw {
      RowMajorInColumns(g, ch, cw, content[i]);
    }
    arr := Arrayify(content, Vec2(cw, ch));
    forall c | 0 <= c < cw ensures arr[c] == Window(input, ox, oy, cw, ch)[c] {
      ArrayifyRowMajor(ch, cw, g, c);
    }
  }

  /** The body of the cell loop shared by both `overlapping_adjacencies`:
      the root, then the four neighbours, scrapping the root in Exclude mode
      at the first infringing direction. */
  method OverlapRoot(input: Grid, x: nat, y: nat, cw: nat, ch: nat, mode: BorderMode, upIsGreater: bool)
    returns (pushed: seq<Adjacency>)
    requires Rect(input) && cw > 0 && ch > 0 && |input| > 0 && DimensionsOf(input).y > 0
    ensures pushed == OverlapAt(input, x, y, cw, ch, mode, upIsGreater)
  {
    var size := DimensionsOf(input);
    var w, h := size.x, size.y;
    if x + cw - 1 > w - 1 || y + ch - 1 > h - 1 {
      return [];
    }
    var root := ChunkContent(input, x, y, cw, ch);
    ghost var spec := OverlapAdjacency(input, x, y, cw, ch, upIsGreater).neighbours;
    var neighbours: seq<Option<Grid>> := [None, None, None, None];
    var scrap := false;
    var i := 0;
    while i < 4 && !scrap
      invariant 0 <= i <= 4 && |neighbours| == 4
      invariant forall j :: 0 <= j < i ==>
                  !(mode == Exclude && Infringes(NeighbourOrigin(x, y, cw, ch, j, upIsGreater), cw, ch, w, h))
      invariant scrap ==> i < 4 && mode == Exclude && Infringes(NeighbourOrigin(x, y, cw, ch, i, upIsGreater), cw, ch, w, h)
      invariant forall j :: 0 <= j < i ==> neighbours[j] == spec[j]
      invariant forall j :: i <= j < 4 ==> neighbours[j] == None
      decreases 4 - i, if scrap then 0 else 1
    {
      var o := NeighbourOrigin(x, y, cw, ch, i, upIsGreater);
      if Infringes(o, cw, ch, w, h) && mode == Exclude {
        scrap := true;
      } else {
        if OriginAndEdgeInside(o, cw, ch, w, h) {
          var data := ChunkContent(input, o.0 as nat, o.1 as nat, cw, ch);
          neighbours := neighbours[i := Some(data)];
        }
        i := i + 1;
      }
    }
    if scrap {
      return [];
    }
    pushed := [Adjacency(root, neighbours)];
    assert neighbours == spec;
  }

  /** The inner loop of `overlapping_adjacencies` (wfc/src/helpers.rs): the cells of column `x`. */
  method OverlapColumn(input: Grid, x: nat, cw: nat, ch: nat, mode: BorderMode) returns (col: seq<Adjacency>)
    requires Rect(input) && cw > 0 && ch > 0 && |input| > 0 && DimensionsOf(input).y > 0
    ensures col == Column(x, DimensionsOf(input).y, OverlapCell(input, cw, ch, mode))
  {
    var h := DimensionsOf(input).y;
    ghost var f := OverlapCell(input, cw, ch, mode);
    col := [];
    var y := 0;
    while y < h
      invariant 0 <= y <= h
      invariant col == Column(x, y, f)
    {
      var pushed := OverlapRoot(input, x, y, cw, ch, mode, true);
      assert Column(x, y + 1, f) == Column(x, y, f) + f(x, y);
      col := col + pushed;
      y := y + 1;
    }
  }

  /** `overlapping_adjacencies` (wfc/src/helpers.rs), the catalog source of
      both engines: empty for a zero chunk dimension; otherwise the cells are
      visited x-major.  `size - 1` underflows on an empty input. */
  method OverlappingAdjacencies(input: Grid, chunk: Vec2, mode: BorderMode) returns (list: seq<Adjacency>)
    requires chunk.x > 0 && chunk.y > 0 ==> Rect(input) && |input| > 0 && DimensionsOf(input).y > 0
    ensures chunk.x == 0 || chunk.y == 0 ==> list == []
    ensures chunk.x > 0 && chunk.y > 0 ==>
              list == Scan(|input|, DimensionsOf(input).y, OverlapCell(input, chunk.x, chunk.y, mode))
  {
    if chunk.x < 1 || chunk.y < 1 {
      return [];
    }
    var size := DimensionsOf(input);
    ghost var f := OverlapCell(input, chunk.x, chunk.y, mode);
    assert forall a, b :: f.requires(a, b);
    list := [];
    var x := 0;
    while x < size.x
      invariant 0 <= x <= size.x
      invariant list == Scan(x, size.y, f)
    {
      var col := OverlapColumn(input, x, chunk.x, chunk.y, mode);
      assert Scan(x + 1, size.y, f) == Scan(x, size.y, f) + Column(x, size.y, f);
      list := list + col;
      x := x + 1;
    }
  }

  /** The inner loop of the prototype's `overlapping_adjacencies`: the cells of row `y`. */
  method PrototypeRow(input: Grid, y: nat, cw: nat, ch: nat, mode: BorderMode) returns (row: seq<Adjacency>)
    requires Rect(input) && cw > 0 && ch > 0 && |input| > 0 && DimensionsOf(input).y > 0
    ensures row == Column(y, |input|, PrototypeCell(input, cw, ch, mode))
  {
    var w := |input|;
    ghost var f := PrototypeCell(input, cw, ch, mode);
    row := [];
    var x := 0;
    while x < w
      invariant 0 <= x <= w
      invariant row == Column(y, x, f)
    {
      var pushed := OverlapRoot(input, x, y, cw, ch, mode, false);
      assert Column(y, x + 1, f) == Column(y, x, f) + f(y, x);
      row := row + pushed;
      x := x + 1;
    }
  }

  /** `overlapping_adjacencies` of the prototype (src/helpers.rs): the same
      per-cell work with direction 0 at -y, and the cells visited y-major. */
  method PrototypeAdjacencies(input: Grid, chunk: Vec2, mode: BorderMode) returns (list: seq<Adjacency>)
    requires chunk.x > 0 && chunk.y > 0 ==> Rect(input) && |input| > 0 && DimensionsOf(input).y > 0
    ensures chunk.x == 0 || chunk.y == 0 ==> list == []
    ensures chunk.x > 0 && chunk.y > 0 ==>
              list == Scan(DimensionsOf(input).y, |input|, PrototypeCell(input, chunk.x, chunk.y, mode))
  {
    if chunk.x < 1 || chunk.y < 1 {
      return [];
    }
    var size := DimensionsOf(input);
    ghost var f := PrototypeCell(input, chunk.x, chunk.y, mode);
    assert forall a, b :: f.requires(a, b);
    list := [];
    var y := 0;
    while y < size.y
      invariant 0 <= y <= size.y
      invariant list == Scan(y, size.x, f)
    {
      var row := PrototypeRow(input, y, chunk.x, chunk.y, mode);
      assert Scan(y + 1, size.x, f) == Scan(y, size.x, f) + Column(y, size.x, f);
      list := list + row;
      y := y + 1;
    }
  }

  // ----------------------------------------------------------------------
  // What the extractors compute

  /** Per root, `overlapping_adjacencies` builds the same adjacency as
      `adjacencies`: the Clamp test keeps exactly the neighbours whose
      window lies inside the input. */
  lemma {:induction false} OverlapAgreesWithWave(input: Grid, x: nat, y: nat, cw: nat, ch: nat, upIsGreater: bool)
    requires Rect(input) && Fits(input, x, y, cw, ch) && cw > 0 && ch > 0
    ensures OverlapAdjacency(input, x, y, cw, ch, upIsGreater) == AdjacencyAt(input, x, y, cw, ch, upIsGreater)
  {
    var w, h := |input|, DimensionsOf(input).y;
    forall i | 0 <= i < 4
      ensures OverlapAdjacency(input, x, y, cw, ch, upIsGreater).neighbours[i] == AdjacencyAt(input, x, y, cw, ch, upIsGreater).neighbours[i]
    {
      OriginAndEdgeInsideIsInside(NeighbourOrigin(x, y, cw, ch, i, upIsGreater), cw, ch, w, h);
    }
  }

  /** Exclude mode keeps the root at (x, y) exactly when a full chunk plus
      one cell separates it from every border: an adjacent window that
      touches row or column 0, or the last one, scraps the root. */
  lemma {:induction false} ExcludeKeeps(x: nat, y: nat, cw: nat, ch: nat, upIsGreater: bool, w: nat, h: nat)
    requires cw > 0 && ch > 0
    ensures !Scrapped(x, y, cw, ch, Exclude, upIsGreater, w, h) <==>
              cw + 1 <= x && x + 2 * cw < w && ch + 1 <= y && y + 2 * ch < h
  {
    var o := i requires 0 <= i < 4 => NeighbourOrigin(x, y, cw, ch, i, upIsGreater);
    forall i | 0 <= i < 4 {
      InfringesAtBorder(o(i), cw, ch, w, h);
    }
    if !(cw + 1 <= x && x + 2 * cw < w && ch + 1 <= y && y + 2 * ch < h) {
      var up, down := if upIsGreater then 0 else 2, if upIsGreater then 2 else 0;
      if x < cw + 1 {
        assert Infringes(o(3), cw, ch, w, h);
      } else if x + 2 * cw >= w {
        assert Infringes(o(1), cw, ch, w, h);
      } else if y < ch + 1 {
        assert Infringes(o(down), cw, ch, w, h);
      } else {
        assert Infringes(o(up), cw, ch, w, h);
      }
    }
  }

  /** In Clamp mode, `overlapping_adjacencies` (wfc/src/helpers.rs) returns
      exactly what `adjacencies` returns with `up_is_greater`: one adjacency
      per origin where the chunk fits, x-major, and nothing when the chunk
      is larger than the input. */
  lemma ClampIsWave(input: Grid, cw: nat, ch: nat)
    requires Rect(input) && |input| > 0 && DimensionsOf(input).y > 0 && cw > 0 && ch > 0
    ensures var w, h := |input|, DimensionsOf(input).y;
            Scan(w, h, OverlapCell(input, cw, ch, Clamp)) ==
              if cw <= w && ch <= h then Scan(w - cw + 1, h - ch + 1, AdjacencyCell(input, cw, ch, true)) else []
  {
    var w, h := |input|, DimensionsOf(input).y;
    var f := OverlapCell(input, cw, ch, Clamp);
    if cw <= w && ch <= h {
      var g := AdjacencyCell(input, cw, ch, true);
      forall x, y | 0 <= x < w - cw + 1 && 0 <= y < h - ch + 1
        ensures g.requires(x, y) && g(x, y) == f(x, y)
      {
        WaveCellAt(input, cw, ch, true, x, y);
        OverlapAgreesWithWave(input, x, y, cw, ch, true);
      }
      ScanRestrict(w, h, f, w - cw + 1, h - ch + 1, g);
    } else {
      ScanRestrict(w, h, f, 0, 0, f);
    }
  }

  /** A cell of the prototype's scan where the chunk fits pushes the
      adjacency of that root, with direction 0 at -y. */
  lemma PrototypeCellAt(input: Grid, cw: nat, ch: nat, x: nat, y: nat)
    requires Rect(input) && cw > 0 && ch > 0
    requires x + cw <= |input| && y + ch <= DimensionsOf(input).y
    ensures Fits(input, x, y, cw, ch)
    ensures PrototypeCell(input, cw, ch, Clamp)(y, x) == [AdjacencyAt(input, x, y, cw, ch, false)]
  {
    assert Fits(input, x, y, cw, ch) by {
      assert forall i :: x <= i < x + cw ==> |input[i]| == DimensionsOf(input).y;
    }
    OverlapAgreesWithWave(input, x, y, cw, ch, false);
  }

  /** In Clamp mode the prototype's scan only pushes at the
      (H - ch + 1) x (W - cw + 1) cells where the chunk fits, one item each. */
  lemma PrototypeClampRestrict(input: Grid, cw: nat, ch: nat)
    requires Rect(input) && |input| > 0 && DimensionsOf(input).y > 0 && cw > 0 && ch > 0
    requires cw <= |input| && ch <= DimensionsOf(input).y
    ensures var w, h := |input|, DimensionsOf(input).y;
            var f := PrototypeCell(input, cw, ch, Clamp);
            Scan(h, w, f) == Scan(h - ch + 1, w - cw + 1, f) &&
            forall b, a :: 0 <= b < h - ch + 1 && 0 <= a < w - cw + 1 ==> |f(b, a)| == 1
  {
    var w, h := |input|, DimensionsOf(input).y;
    var f := PrototypeCell(input, cw, ch, Clamp);
    assert forall a, b :: f.requires(a, b);
    forall b, a | 0 <= b < h - ch + 1 && 0 <= a < w - cw + 1
      ensures |f(b, a)| == 1
    {
      PrototypeCellAt(input, cw, ch, a, b);
    }
    ScanRestrict(h, w, f, h - ch + 1, w - cw + 1, f);
  }

  /** In Clamp mode the prototype returns (W - cw + 1) * (H - ch + 1) adjacencies. */
  lemma PrototypeClampLength(input: Grid, cw: nat, ch: nat)
    requires Rect(input) && |input| > 0 && DimensionsOf(input).y > 0 && cw > 0 && ch > 0
    requires cw <= |input| && ch <= DimensionsOf(input).y
    ensures var w, h := |input|, DimensionsOf(input).y;
            |Scan(h, w, PrototypeCell(input, cw, ch, Clamp))| == Mul(h - ch + 1, w - cw + 1)
  {
    var w, h := |input|, DimensionsOf(input).y;
    var f := PrototypeCell(input, cw, ch, Clamp);
    PrototypeClampRestrict(input, cw, ch);
    ScanLength(h - ch + 1, w - cw + 1, f);
  }

  /** ... in y-major order: the one at index `y * (W - cw + 1) + x` is what
      the cell of the root at (x, y) pushes (`PrototypeCellAt`). */
  lemma PrototypeClampIndex(input: Grid, cw: nat, ch: nat, x: nat, y: nat)
    requires Rect(input) && |input| > 0 && DimensionsOf(input).y > 0 && cw > 0 && ch > 0
    requires x + cw <= |input| && y + ch <= DimensionsOf(input).y
    ensures var w, h := |input|, DimensionsOf(input).y;
            var list := Scan(h, w, PrototypeCell(input, cw, ch, Clamp));
            Flat(y, x, w - cw + 1) < |list| &&
            list[Flat(y, x, w - cw + 1)] in PrototypeCell(input, cw, ch, Clamp)(y, x)
  {
    var w, h := |input|, DimensionsOf(input).y;
    var f := PrototypeCell(input, cw, ch, Clamp);
    PrototypeClampRestrict(input, cw, ch);
    ScanIndex(h - ch + 1, w - cw + 1, f, y, x);
  }

  /** In Exclude mode `overlapping_adjacencies` (wfc/src/helpers.rs) returns
      the adjacencies of exactly the roots that `ExcludeKeeps` admits. */
  lemma ExcludeMembers(input: Grid, cw: nat, ch: nat, a: Adjacency)
    requires Rect(input) && |input| > 0 && DimensionsOf(input).y > 0 && cw > 0 && ch > 0
    ensures var w, h := |input|, DimensionsOf(input).y;
            a in Scan(w, h, OverlapCell(input, cw, ch, Exclude)) <==>
              exists x: nat, y: nat :: cw + 1 <= x && x + 2 * cw < w && ch + 1 <= y && y + 2 * ch < h &&
                Fits(input, x, y, cw, ch) && a == AdjacencyAt(input, x, y, cw, ch, true)
  {
    var w, h := |input|, DimensionsOf(input).y;
    var f := OverlapCell(input, cw, ch, Exclude);
    assert forall a, b :: f.requires(a, b);
    ScanMembers(w, h, f, a);
    forall x: nat, y: nat | x < w && y < h
      ensures a in f(x, y) <==> (cw + 1 <= x && x + 2 * cw < w && ch + 1 <= y && y + 2 * ch < h &&
                                  Fits(input, x, y, cw, ch) && a == AdjacencyAt(input, x, y, cw, ch, true))
    {
      ExcludeKeeps(x, y, cw, ch, true, w, h);
      if cw + 1 <= x && x + 2 * cw < w && ch + 1 <= y && y + 2 * ch < h {
        assert Fits(input, x, y, cw, ch) by {
          assert forall i :: x <= i < x + cw ==> |input[i]| == h;
        }
        OverlapAgreesWithWave(input, x, y, cw, ch, true);
      }
    }
  }

  /** Exclude mode needs room for three chunks and two spare cells along
      each axis: below that it returns nothing (a 3 x 3 input with 1 x 1
      chunks gives no adjacency at all). */
  lemma ExcludeTooSmall(input: Grid, cw: nat, ch: nat)
    requires Rect(input) && |input| > 0 && DimensionsOf(input).y > 0 && cw > 0 && ch > 0
    requires |input| < 3 * cw + 2 || DimensionsOf(input).y < 3 * ch + 2
    ensures Scan(|input|, DimensionsOf(input).y, OverlapCell(input, cw, ch, Exclude)) == []
  {
    var w, h := |input|, DimensionsOf(input).y;
    var f := OverlapCell(input, cw, ch, Exclude);
    assert forall a, b :: f.requires(a, b);
    forall x: nat, y: nat | x < w && y < h ensures f(x, y) == [] {
      ExcludeKeeps(x, y, cw, ch, true, w, h);
    }
    ScanRestrict(w, h, f, 0, 0, f);
  }

  /** The input of the overlapping-adjacency example of
      src/helpers/tests.rs, after `swap_layers`: indexed `[x][y]`. */
  function ExampleGrid(): Grid {
    [[0, 0, 1, 1], [1, 0, 0, 1], [1, 1, 0, 1], [2, 1, 0, 1]]
  }

  lemma ExampleWindows()
    ensures Rect(ExampleGrid())
    ensures Window(ExampleGrid(), 0, 0, 2, 2) == [[0, 0], [1, 0]]
    ensures Window(ExampleGrid(), 2, 0, 2, 2) == [[1, 1], [2, 1]]
    ensures Window(ExampleGrid(), 0, 2, 2, 2) == [[1, 1], [0, 1]]
  {
    var t := ExampleGrid();
    assert Rect(t);
    Seqs.Two(Window(t, 0, 0, 2, 2)[0], 0, 0);
    Seqs.Two(Window(t, 0, 0, 2, 2)[1], 1, 0);
    Seqs.Two(Window(t, 0, 0, 2, 2), [0, 0], [1, 0]);
    Seqs.Two(Window(t, 2, 0, 2, 2)[0], 1, 1);
    Seqs.Two(Window(t, 2, 0, 2, 2)[1], 2, 1);
    Seqs.Two(Window(t, 2, 0, 2, 2), [1, 1], [2, 1]);
    Seqs.Two(Window(t, 0, 2, 2, 2)[0], 1, 1);
    Seqs.Two(Window(t, 0, 2, 2, 2)[1], 0, 1);
    Seqs.Two(Window(t, 0, 2, 2, 2), [1, 1], [0, 1]);
  }

  /** The example's first adjacency, as the prototype builds it: the root
      window at (0, 0); above (direction 0, -y) and to the left (3) nothing;
      to the right (1) the window at (2, 0); below (2, +y) the window at (0, 2). */
  lemma ExampleFirstAdjacency()
    ensures Rect(ExampleGrid()) && Fits(ExampleGrid(), 0, 0, 2, 2)
    ensures AdjacencyAt(ExampleGrid(), 0, 0, 2, 2, false) ==
              Adjacency([[0, 0], [1, 0]], [None, Some([[1, 1], [2, 1]]), Some([[1, 1], [0, 1]]), None])
  {
    var t := ExampleGrid();
    ExampleWindows();
    var a := AdjacencyAt(t, 0, 0, 2, 2, false);
    AdjacencyAtNeighbour(t, 0, 0, 2, 2, false, 0);
    AdjacencyAtNeighbour(t, 0, 0, 2, 2, false, 1);
    AdjacencyAtNeighbour(t, 0, 0, 2, 2, false, 2);
    AdjacencyAtNeighbour(t, 0, 0, 2, 2, false, 3);
    Seqs.Four(a.neighbours, None, Some([[1, 1], [2, 1]]), Some([[1, 1], [0, 1]]), None);
  }

  /** The prototype's `overlapping_adjacencies` on the example in Clamp mode
      with 2 x 2 chunks yields nine adjacencies, the first as above: its
      right neighbour is the window the example expects below it. */
  lemma PrototypeExample()
    ensures Rect(ExampleGrid())
    ensures var list := Scan(4, 4, PrototypeCell(ExampleGrid(), 2, 2, Clamp));
            |list| == 9 &&
            list[0] == Adjacency([[0, 0], [1, 0]], [None, Some([[1, 1], [2, 1]]), Some([[1, 1], [0, 1]]), None])
  {
    var t := ExampleGrid();
    ExampleFirstAdjacency();
    PrototypeClampLength(t, 2, 2);
    MulIsProduct(3, 3);
    PrototypeClampIndex(t, 2, 2, 0, 0);
    PrototypeCellAt(t, 2, 2, 0, 0);
  }
}
