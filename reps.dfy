/** The two output views of a wave (wavefc/src/lib.rs, identical in
    wfc/src/lib.rs): `perfect_rep`, the output grid of a completely
    collapsed wave, and `current_rep`, the sorted distinct values each cell
    may still take.  Both list (value, output location) pairs chunk by chunk
    and hand them to `arrayify`; the lemmas show that this places the value
    of chunk (X, Y) at cell (x, y) at output cell
    (X * chunk.x + x, Y * chunk.y + y). */
module Reps {
  import opened Geometry
  import opened Arith
  import opened Grids
  import opened Catalog
  import opened Engine
  import opened Adjacencies
  import Orders
  import Seqs

  // ----------------------------------------------------------------------
  // Pairs of a tiled output

  /** The pairs pushed for column `col` of a block, the column lying at `at`. */
  function ColumnPairs<T>(col: seq<T>, at: Vec2): (r: seq<(T, Vec2)>)
    ensures |r| == |col|
    ensures forall y :: 0 <= y < |col| ==> r[y] == (col[y], Vec2(at.x, at.y + y))
  {
    seq(|col|, y requires 0 <= y < |col| => (col[y], Vec2(at.x, at.y + y)))
  }

  /** The pairs pushed for a block `grid` with its corner at `origin`, column by column. */
  function GridPairs<T>(grid: seq<seq<T>>, origin: Vec2): seq<(T, Vec2)>
  {
    if grid == [] then []
    else GridPairs(grid[..|grid| - 1], origin) + ColumnPairs(grid[|grid| - 1], Vec2(origin.x + |grid| - 1, origin.y))
  }

  /** The pairs of all blocks, in order. */
  function BlockPairs<T>(blocks: seq<(seq<seq<T>>, Vec2)>): seq<(T, Vec2)>
  {
    if blocks == [] then []
    else BlockPairs(blocks[..|blocks| - 1]) + GridPairs(blocks[|blocks| - 1].0, blocks[|blocks| - 1].1)
  }

  lemma {:induction false} BlockPairsSnoc<T>(blocks: seq<(seq<seq<T>>, Vec2)>, i: nat)
    requires i < |blocks|
    ensures BlockPairs(blocks[..i + 1]) == BlockPairs(blocks[..i]) + GridPairs(blocks[i].0, blocks[i].1)
  {
    assert blocks[..i + 1][..i] == blocks[..i];
  }

  lemma {:induction false} ColumnPairsSnoc<T>(col: seq<T>, at: Vec2, y: nat)
    requires y < |col|
    ensures ColumnPairs(col[..y + 1], at) == ColumnPairs(col[..y], at) + [(col[y], Vec2(at.x, at.y + y))]
  {
  }

  lemma {:induction false} GridPairsSnoc<T>(grid: seq<seq<T>>, origin: Vec2, x: nat)
    requires x < |grid|
    ensures GridPairs(grid[..x + 1], origin) == GridPairs(grid[..x], origin) + ColumnPairs(grid[x], Vec2(origin.x + x, origin.y))
  {
    var g := grid[..x + 1];
    assert g[..|g| - 1] == grid[..x] && g[|g| - 1] == grid[x];
  }

  lemma ColumnPairsOf<T>(col: seq<T>, at: Vec2, c: nat)
    ensures ColumnOf(ColumnPairs(col, at), c) == if at.x == c then col else []
  {
    ColumnPairsUpTo(col, at, c, |col|);
    assert col[..|col|] == col;
  }

  lemma {:induction false} ColumnPairsUpTo<T>(col: seq<T>, at: Vec2, c: nat, k: nat)
    requires k <= |col|
    ensures ColumnUpTo(ColumnPairs(col, at), c, k) == if at.x == c then col[..k] else []
  {
    if k > 0 {
      var pairs := ColumnPairs(col, at);
      ColumnPairsUpTo(col, at, c, k - 1);
      assert pairs[k - 1] == (col[k - 1], Vec2(at.x, at.y + k - 1));
      if at.x == c {
        assert ColumnUpTo(pairs, c, k) == col[..k - 1] + [col[k - 1]];
        assert col[..k] == col[..k - 1] + [col[k - 1]];
      } else {
        assert ColumnUpTo(pairs, c, k) == [] + [];
      }
    }
  }

  /** Column `c` of a block's pairs is the block's own column there, if any. */
  lemma {:induction false} GridPairsOf<T>(grid: seq<seq<T>>, origin: Vec2, c: nat)
    ensures ColumnOf(GridPairs(grid, origin), c) ==
            if origin.x <= c < origin.x + |grid| then grid[c - origin.x] else []
  {
    if grid != [] {
      var n := |grid|;
      var front, last := GridPairs(grid[..n - 1], origin), ColumnPairs(grid[n - 1], Vec2(origin.x + n - 1, origin.y));
      assert GridPairs(grid, origin) == front + last;
      GridPairsOf(grid[..n - 1], origin, c);
      ColumnOfAppend(front, last, c);
      ColumnPairsOf(grid[n - 1], Vec2(origin.x + n - 1, origin.y), c);
      if c == origin.x + n - 1 {
        assert ColumnOf(front, c) == [];
        assert ColumnOf(last, c) == grid[c - origin.x];
      } else if origin.x <= c < origin.x + n - 1 {
        assert ColumnOf(front, c) == grid[c - origin.x];
        assert ColumnOf(last, c) == [];
      } else {
        assert ColumnOf(front, c) == [] && ColumnOf(last, c) == [];
      }
    }
  }

  lemma {:induction false} GridPairsInside<T>(grid: seq<seq<T>>, origin: Vec2)
    ensures forall k :: 0 <= k < |GridPairs(grid, origin)| ==> GridPairs(grid, origin)[k].1.x < origin.x + |grid|
  {
    if grid != [] {
      GridPairsInside(grid[..|grid| - 1], origin);
    }
  }

  /** No pair lies beyond `bound` when no block reaches past it. */
  lemma {:induction false} BlockPairsInside<T>(blocks: seq<(seq<seq<T>>, Vec2)>, bound: nat)
    requires forall i :: 0 <= i < |blocks| ==> blocks[i].1.x + |blocks[i].0| <= bound
    ensures forall k :: 0 <= k < |BlockPairs(blocks)| ==> BlockPairs(blocks)[k].1.x < bound
  {
    if blocks != [] {
      var b := blocks[|blocks| - 1];
      BlockPairsInside(blocks[..|blocks| - 1], bound);
      GridPairsInside(b.0, b.1);
    }
  }

  /** The blocks tile the output: the block of chunk (p, q) is block
      `Flat(p, q, fill.y)`, chunk-shaped, with its corner at
      (p * chunk.x, q * chunk.y). */
  ghost predicate Tiled<T>(blocks: seq<(seq<seq<T>>, Vec2)>, fill: Vec2, chunk: Vec2) {
    |blocks| == Mul(fill.x, fill.y) &&
    forall p: nat, q: nat :: p < fill.x && q < fill.y ==>
      Flat(p, q, fill.y) < |blocks| &&
      blocks[Flat(p, q, fill.y)].1 == Vec2(Mul(p, chunk.x), Mul(q, chunk.y)) &&
      IsRect(blocks[Flat(p, q, fill.y)].0, chunk.x, chunk.y)
  }

  /** Block `k` of a tiling is the block of some chunk (p, q). */
  lemma {:induction false} TiledAt<T>(blocks: seq<(seq<seq<T>>, Vec2)>, fill: Vec2, chunk: Vec2, k: nat) returns (p: nat, q: nat)
    requires Tiled(blocks, fill, chunk) && k < |blocks|
    ensures k == Flat(p, q, fill.y) && p < fill.x && q < fill.y
    ensures blocks[k].1 == Vec2(Mul(p, chunk.x), Mul(q, chunk.y)) && IsRect(blocks[k].0, chunk.x, chunk.y)
  {
    p, q := Unflatten(k, fill.x, fill.y);
  }

  /** How many of the first `n` blocks lie in chunk column `X`. */
  function Seen(n: nat, X: nat, fy: nat): nat {
    if n <= Mul(X, fy) then 0 else if n >= Mul(X, fy) + fy then fy else n - Mul(X, fy)
  }

  lemma {:induction false} TiledInside<T>(blocks: seq<(seq<seq<T>>, Vec2)>, fill: Vec2, chunk: Vec2)
    requires Tiled(blocks, fill, chunk)
    ensures forall k :: 0 <= k < |BlockPairs(blocks)| ==> BlockPairs(blocks)[k].1.x < fill.x * chunk.x
  {
    MulIsProduct(fill.x, chunk.x);
    forall i | 0 <= i < |blocks| ensures blocks[i].1.x + |blocks[i].0| <= Mul(fill.x, chunk.x) {
      var p, _ := TiledAt(blocks, fill, chunk, i);
      FlatBelow(p, chunk.x, fill.x, chunk.x);
    }
    BlockPairsInside(blocks, Mul(fill.x, chunk.x));
  }

  /** Column `x` of the `m` blocks from `start` on, stacked. */
  function Stack<T>(blocks: seq<(seq<seq<T>>, Vec2)>, start: nat, x: nat, m: nat): seq<T>
    requires start + m <= |blocks|
    requires forall j :: start <= j < start + m ==> x < |blocks[j].0|
  {
    if m == 0 then [] else Stack(blocks, start, x, m - 1) + blocks[start + m - 1].0[x]
  }

  /** Stacking columns of height `h`: entry `y` of the `j`-th block is entry `Flat(j, y, h)`. */
  lemma {:induction false} StackIndex<T>(blocks: seq<(seq<seq<T>>, Vec2)>, start: nat, x: nat, m: nat, h: nat)
    requires start + m <= |blocks|
    requires forall j :: start <= j < start + m ==> x < |blocks[j].0| && |blocks[j].0[x]| == h
    ensures |Stack(blocks, start, x, m)| == Mul(m, h)
    ensures forall j: nat, y: nat :: j < m && y < h ==>
              Flat(j, y, h) < Mul(m, h) && Stack(blocks, start, x, m)[Flat(j, y, h)] == blocks[start + j].0[x][y]
  {
    if m > 0 {
      StackIndex(blocks, start, x, m - 1, h);
      var front := Stack(blocks, start, x, m - 1);
      forall j: nat, y: nat | j < m && y < h
        ensures Flat(j, y, h) < Mul(m, h) && Stack(blocks, start, x, m)[Flat(j, y, h)] == blocks[start + j].0[x][y]
      {
        FlatBelow(j, y, m, h);
        if j < m - 1 {
          FlatBelow(j, y, m - 1, h);
          assert Stack(blocks, start, x, m)[Flat(j, y, h)] == front[Flat(j, y, h)];
        }
      }
    }
  }

  /** Appending a block's pairs extends column `c` by the block's own column there, if any. */
  lemma {:induction false} ColumnAppendBlock<T>(a: seq<(T, Vec2)>, grid: seq<seq<T>>, origin: Vec2, c: nat)
    ensures ColumnOf(a + GridPairs(grid, origin), c) ==
            ColumnOf(a, c) + (if origin.x <= c < origin.x + |grid| then grid[c - origin.x] else [])
  {
    ColumnOfAppend(a, GridPairs(grid, origin), c);
    GridPairsOf(grid, origin, c);
  }

  /** Adding block `k` extends column `c` by the block's own column there, if any. */
  lemma {:induction false} BlockStep<T>(blocks: seq<(seq<seq<T>>, Vec2)>, k: nat, c: nat)
    requires k < |blocks|
    ensures ColumnOf(BlockPairs(blocks[..k + 1]), c) ==
            ColumnOf(BlockPairs(blocks[..k]), c) +
            (if blocks[k].1.x <= c < blocks[k].1.x + |blocks[k].0| then blocks[k].0[c - blocks[k].1.x] else [])
  {
    var a, b := BlockPairs(blocks[..k]), blocks[k];
    BlockPairsSnoc(blocks, k);
    assert BlockPairs(blocks[..k + 1]) == a + GridPairs(b.0, b.1);
    ColumnAppendBlock(a, b.0, b.1, c);
  }

  /** Block `Flat(p, q, fy)` is the next block of chunk column `X` when `p == X`,
      and leaves the count of that column's blocks alone otherwise. */
  lemma SeenStep(X: nat, fy: nat, p: nat, q: nat)
    requires q < fy
    ensures p == X ==> Seen(Flat(p, q, fy) + 1, X, fy) == Seen(Flat(p, q, fy), X, fy) + 1
    ensures p == X ==> Mul(X, fy) + Seen(Flat(p, q, fy), X, fy) == Flat(p, q, fy)
    ensures p != X ==> Seen(Flat(p, q, fy) + 1, X, fy) == Seen(Flat(p, q, fy), X, fy)
  {
    if p < X {
      MulMonotone(p + 1, X, fy);
    } else if p > X {
      MulMonotone(X + 1, p, fy);
    }
  }

  /** Adding block `k` of a tiling, the block of chunk (p, q), extends output
      column `Flat(X, x, chunk.x)` by the block's column `x` exactly when `p == X`. */
  lemma {:induction false} BlockContribution<T>(blocks: seq<(seq<seq<T>>, Vec2)>, fill: Vec2, chunk: Vec2, X: nat, x: nat, k: nat)
    returns (p: nat, q: nat)
    requires Tiled(blocks, fill, chunk) && x < chunk.x && k < |blocks|
    ensures k == Flat(p, q, fill.y) && p < fill.x && q < fill.y && x < |blocks[k].0|
    ensures ColumnOf(BlockPairs(blocks[..k + 1]), Flat(X, x, chunk.x)) ==
            ColumnOf(BlockPairs(blocks[..k]), Flat(X, x, chunk.x)) + (if p == X then blocks[k].0[x] else [])
  {
    p, q := TiledAt(blocks, fill, chunk, k);
    BlockStep(blocks, k, Flat(X, x, chunk.x));
    FlatSameBlock(p, X, x, chunk.x);
  }

  /** The blocks of chunk column `X` are the `fill.y` blocks from `Mul(X, fill.y)` on. */
  lemma {:induction false} TiledWidths<T>(blocks: seq<(seq<seq<T>>, Vec2)>, fill: Vec2, chunk: Vec2, X: nat, x: nat)
    requires Tiled(blocks, fill, chunk) && X < fill.x && x < chunk.x
    ensures Mul(X, fill.y) + fill.y <= |blocks|
    ensures forall j :: Mul(X, fill.y) <= j < Mul(X, fill.y) + fill.y ==> x < |blocks[j].0| && |blocks[j].0[x]| == chunk.y
  {
    FlatBelow(X, fill.y, fill.x, fill.y);
    forall j | Mul(X, fill.y) <= j < Mul(X, fill.y) + fill.y ensures x < |blocks[j].0| && |blocks[j].0[x]| == chunk.y {
      var _, _ := TiledAt(blocks, fill, chunk, j);
    }
  }

  /** Output column `Flat(X, x, chunk.x)` after the first `n` blocks: column
      `x` of each block of chunk column `X` seen so far, stacked. */
  lemma {:induction false} PrefixColumn<T>(blocks: seq<(seq<seq<T>>, Vec2)>, fill: Vec2, chunk: Vec2, X: nat, x: nat, n: nat)
    requires Tiled(blocks, fill, chunk) && X < fill.x && x < chunk.x && n <= |blocks|
    requires Mul(X, fill.y) + fill.y <= |blocks|
    requires forall j :: Mul(X, fill.y) <= j < Mul(X, fill.y) + fill.y ==> x < |blocks[j].0|
    ensures Seen(n, X, fill.y) <= fill.y
    ensures ColumnOf(BlockPairs(blocks[..n]), Flat(X, x, chunk.x)) == Stack(blocks, Mul(X, fill.y), x, Seen(n, X, fill.y))
  {
    if n == 0 {
      assert BlockPairs(blocks[..n]) == [];
      assert ColumnOf(BlockPairs(blocks[..n]), Flat(X, x, chunk.x)) == [];
    } else {
      PrefixColumn(blocks, fill, chunk, X, x, n - 1);
      var p, q := BlockContribution(blocks, fill, chunk, X, x, n - 1);
      SeenStep(X, fill.y, p, q);
      if p == X {
        var s := Seen(n - 1, X, fill.y);
        assert Stack(blocks, Mul(X, fill.y), x, s + 1) == Stack(blocks, Mul(X, fill.y), x, s) + blocks[n - 1].0[x];
      }
    }
  }

  /** Output column `Flat(X, x, chunk.x)` of tiled blocks: cell
      `Flat(Y, y, chunk.y)` is cell (x, y) of the block of chunk (X, Y). */
  lemma {:induction false} TiledColumn<T>(blocks: seq<(seq<seq<T>>, Vec2)>, fill: Vec2, chunk: Vec2, X: nat, x: nat)
    requires Tiled(blocks, fill, chunk) && X < fill.x && x < chunk.x
    ensures |ColumnOf(BlockPairs(blocks), Flat(X, x, chunk.x))| == Mul(fill.y, chunk.y)
    ensures forall Y: nat, y: nat :: Y < fill.y && y < chunk.y ==>
              Flat(X, Y, fill.y) < |blocks| && Flat(Y, y, chunk.y) < Mul(fill.y, chunk.y) &&
              ColumnOf(BlockPairs(blocks), Flat(X, x, chunk.x))[Flat(Y, y, chunk.y)] == blocks[Flat(X, Y, fill.y)].0[x][y]
  {
    TiledWidths(blocks, fill, chunk, X, x);
    PrefixColumn(blocks, fill, chunk, X, x, |blocks|);
    assert blocks[..|blocks|] == blocks;
    assert Seen(|blocks|, X, fill.y) == fill.y;
    StackIndex(blocks, Mul(X, fill.y), x, fill.y, chunk.y);
  }

  /** Arrayifying the pairs of tiled blocks: every column is `fill.y` chunks long ... */
  lemma {:induction false} TiledLengths<T>(blocks: seq<(seq<seq<T>>, Vec2)>, fill: Vec2, chunk: Vec2, rep: seq<seq<T>>)
    requires Tiled(blocks, fill, chunk)
    requires |rep| == Mul(fill.x, chunk.x)
    requires forall c :: 0 <= c < |rep| ==> rep[c] == ColumnOf(BlockPairs(blocks), c)
    ensures forall c :: 0 <= c < |rep| ==> |rep[c]| == Mul(fill.y, chunk.y)
  {
    forall c | 0 <= c < |rep| ensures |rep[c]| == Mul(fill.y, chunk.y) {
      var X, x := Unflatten(c, fill.x, chunk.x);
      TiledColumn(blocks, fill, chunk, X, x);
    }
  }

  /** Cell (x, y) of the block of chunk (X, Y) sits at output cell
      (Flat(X, x, chunk.x), Flat(Y, y, chunk.y)). */
  ghost predicate ShowsCell<T>(rep: seq<seq<T>>, blocks: seq<(seq<seq<T>>, Vec2)>, fill: Vec2, chunk: Vec2, X: nat, Y: nat, x: nat, y: nat) {
    Flat(X, Y, fill.y) < |blocks| && x < |blocks[Flat(X, Y, fill.y)].0| && y < |blocks[Flat(X, Y, fill.y)].0[x]| &&
    Flat(X, x, chunk.x) < |rep| && Flat(Y, y, chunk.y) < |rep[Flat(X, x, chunk.x)]| &&
    rep[Flat(X, x, chunk.x)][Flat(Y, y, chunk.y)] == blocks[Flat(X, Y, fill.y)].0[x][y]
  }

  /** `rep` is the output of the tiling `blocks`: `fill.x * chunk.x` columns
      of `fill.y * chunk.y` cells, each block's cells at its chunk. */
  ghost predicate Shows<T>(rep: seq<seq<T>>, blocks: seq<(seq<seq<T>>, Vec2)>, fill: Vec2, chunk: Vec2) {
    |rep| == Mul(fill.x, chunk.x) &&
    (forall c :: 0 <= c < |rep| ==> |rep[c]| == Mul(fill.y, chunk.y)) &&
    forall X: nat, Y: nat, x: nat, y: nat :: X < fill.x && Y < fill.y && x < chunk.x && y < chunk.y ==>
      ShowsCell(rep, blocks, fill, chunk, X, Y, x, y)
  }

  /** Arrayifying the pairs of tiled blocks shows the tiling. */
  lemma {:induction false} TiledShows<T>(blocks: seq<(seq<seq<T>>, Vec2)>, fill: Vec2, chunk: Vec2, rep: seq<seq<T>>)
    requires Tiled(blocks, fill, chunk)
    requires |rep| == Mul(fill.x, chunk.x)
    requires forall c :: 0 <= c < |rep| ==> rep[c] == ColumnOf(BlockPairs(blocks), c)
    ensures Shows(rep, blocks, fill, chunk)
  {
    TiledLengths(blocks, fill, chunk, rep);
    forall X: nat, Y: nat, x: nat, y: nat | X < fill.x && Y < fill.y && x < chunk.x && y < chunk.y
      ensures ShowsCell(rep, blocks, fill, chunk, X, Y, x, y)
    {
      FlatBelow(X, x, fill.x, chunk.x);
      TiledColumn(blocks, fill, chunk, X, x);
    }
  }

  /** Every block is a `chunk`-sized grid. */
  ghost predicate Rects<T>(blocks: seq<(seq<seq<T>>, Vec2)>, chunk: Vec2) {
    forall k :: 0 <= k < |blocks| ==> IsRect(blocks[k].0, chunk.x, chunk.y)
  }

  /** The blocks of a tiling are chunk-shaped. */
  lemma {:induction false} TiledRects<T>(blocks: seq<(seq<seq<T>>, Vec2)>, fill: Vec2, chunk: Vec2)
    requires Tiled(blocks, fill, chunk)
    ensures Rects(blocks, chunk)
  {
    forall k | 0 <= k < |blocks| ensures IsRect(blocks[k].0, chunk.x, chunk.y) {
      var _, _ := TiledAt(blocks, fill, chunk, k);
    }
  }

  /** The end of both representations: the pairs of a tiling, arrayified
      into an output of `true_size`. */
  method Place<T>(pairs: seq<(T, Vec2)>, ghost blocks: seq<(seq<seq<T>>, Vec2)>, fill: Vec2, chunk: Vec2) returns (rep: seq<seq<T>>)
    requires Tiled(blocks, fill, chunk) && pairs == BlockPairs(blocks)
    ensures |rep| == fill.x * chunk.x
    ensures Shows(rep, blocks, fill, chunk)
  {
    TiledInside(blocks, fill, chunk);
    rep := Arrayify(pairs, TrueSize(fill, chunk));
    MulIsProduct(fill.x, chunk.x);
    TiledShows(blocks, fill, chunk, rep);
  }

  // ----------------------------------------------------------------------
  // `perfect_rep`

  /** The output column of column `x` of chunk `p`. */
  function Col(p: Vec2, x: nat, chunk: Vec2): nat {
    Flat(p.x, x, chunk.x)
  }

  /** The output row of row `y` of chunk `p`. */
  function Row(p: Vec2, y: nat, chunk: Vec2): nat {
    Flat(p.y, y, chunk.y)
  }

  /** Where chunk `p`'s top-left cell lands in the output. */
  function Corner(p: Vec2, chunk: Vec2): Vec2 {
    Vec2(p.x * chunk.x, p.y * chunk.y)
  }

  /** Every candidate of every element is a `chunk`-sized grid. */
  ghost predicate Shaped(elements: seq<Element>, chunk: Vec2) {
    forall i, v :: 0 <= i < |elements| && v in elements[i].values ==> IsRect(v.contents, chunk.x, chunk.y)
  }

  /** Blocks placed at the corners of the elements' chunks tile the output. */
  lemma {:induction false} LayoutTiled<T>(elements: seq<Element>, fill: Vec2, chunk: Vec2, blocks: seq<(seq<seq<T>>, Vec2)>)
    requires Layout(elements, fill) && |blocks| == |elements|
    requires forall i :: 0 <= i < |blocks| ==> blocks[i].1 == Corner(elements[i].position, chunk) && IsRect(blocks[i].0, chunk.x, chunk.y)
    ensures Tiled(blocks, fill, chunk)
  {
    forall p: nat, q: nat | p < fill.x && q < fill.y
      ensures Flat(p, q, fill.y) < |blocks| && blocks[Flat(p, q, fill.y)].1 == Vec2(Mul(p, chunk.x), Mul(q, chunk.y))
    {
      LayoutIndex(elements, fill, Vec2(p, q));
      MulIsProduct(p, chunk.x);
      MulIsProduct(q, chunk.y);
    }
  }

  /** Element `i`'s chunk columns lie inside the output. */
  lemma {:induction false} ElementColumn(elements: seq<Element>, fill: Vec2, chunk: Vec2, i: nat, x: nat)
    requires Layout(elements, fill) && i < |elements| && x < chunk.x
    ensures Col(elements[i].position, x, chunk) < Mul(fill.x, chunk.x)
  {
    FlatBelow(elements[i].position.x, x, fill.x, chunk.x);
  }

  /** The output of a tiling whose blocks lie at the elements' chunks: each
      element's block lands on that element's chunk of the output. */
  lemma {:induction false} ElementsOutput<T>(elements: seq<Element>, fill: Vec2, chunk: Vec2, blocks: seq<(seq<seq<T>>, Vec2)>, rep: seq<seq<T>>)
    requires Layout(elements, fill) && Shows(rep, blocks, fill, chunk) && |blocks| == |elements|
    requires Rects(blocks, chunk)
    ensures forall i, x: nat :: 0 <= i < |elements| && x < chunk.x ==> Col(elements[i].position, x, chunk) < |rep|
    ensures forall i, x: nat, y: nat :: 0 <= i < |elements| && x < chunk.x && y < chunk.y ==>
              Row(elements[i].position, y, chunk) < |rep[Col(elements[i].position, x, chunk)]| &&
              rep[Col(elements[i].position, x, chunk)][Row(elements[i].position, y, chunk)] == blocks[i].0[x][y]
  {
    forall i, x: nat | 0 <= i < |elements| && x < chunk.x ensures Col(elements[i].position, x, chunk) < |rep| {
      ElementColumn(elements, fill, chunk, i, x);
    }
    forall i, x: nat, y: nat | 0 <= i < |elements| && x < chunk.x && y < chunk.y
      ensures Row(elements[i].position, y, chunk) < |rep[Col(elements[i].position, x, chunk)]| &&
              rep[Col(elements[i].position, x, chunk)][Row(elements[i].position, y, chunk)] == blocks[i].0[x][y]
    {
      var p := elements[i].position;
      assert ShowsCell(rep, blocks, fill, chunk, p.x, p.y, x, y);
    }
  }

  /** The blocks of `perfect_rep`: each element's first candidate at its corner. */
  function PerfectBlocks(elements: seq<Element>, chunk: Vec2): (r: seq<(Grid, Vec2)>)
    requires forall i :: 0 <= i < |elements| ==> elements[i].values != []
    ensures |r| == |elements|
    ensures forall i :: 0 <= i < |elements| ==> r[i] == (elements[i].values[0].contents, Corner(elements[i].position, chunk))
  {
    seq(|elements|, i requires 0 <= i < |elements| => (elements[i].values[0].contents, Corner(elements[i].position, chunk)))
  }

  lemma {:induction false} PerfectTiled(elements: seq<Element>, fill: Vec2, chunk: Vec2)
    requires Layout(elements, fill) && Shaped(elements, chunk) && CompletelyCollapsed(elements)
    ensures Tiled(PerfectBlocks(elements, chunk), fill, chunk)
  {
    var blocks := PerfectBlocks(elements, chunk);
    forall i | 0 <= i < |blocks| ensures IsRect(blocks[i].0, chunk.x, chunk.y) {
      assert elements[i].values[0] in elements[i].values;
    }
    LayoutTiled(elements, fill, chunk, blocks);
  }

  /** The output of `perfect_rep`, from the tiling of its blocks. */
  lemma {:induction false} PerfectCells(elements: seq<Element>, fill: Vec2, chunk: Vec2, rep: seq<seq<nat>>)
    requires Layout(elements, fill) && Shaped(elements, chunk) && CompletelyCollapsed(elements)
    requires Shows(rep, PerfectBlocks(elements, chunk), fill, chunk)
    ensures forall c :: 0 <= c < |rep| ==> |rep[c]| == fill.y * chunk.y
    ensures forall i, x: nat :: 0 <= i < |elements| && x < chunk.x ==> Col(elements[i].position, x, chunk) < |rep|
    ensures forall i, x: nat, y: nat :: 0 <= i < |elements| && x < chunk.x && y < chunk.y ==>
              Row(elements[i].position, y, chunk) < |rep[Col(elements[i].position, x, chunk)]| &&
              rep[Col(elements[i].position, x, chunk)][Row(elements[i].position, y, chunk)] == elements[i].values[0].contents[x][y]
  {
    var blocks := PerfectBlocks(elements, chunk);
    MulIsProduct(fill.y, chunk.y);
    PerfectTiled(elements, fill, chunk);
    TiledRects(blocks, fill, chunk);
    ElementsOutput(elements, fill, chunk, blocks, rep);
  }

  /** The column loop over a block's grid and the cell loop over each column. */
  method PushGrid<T>(grid: seq<seq<T>>, origin: Vec2) returns (pairs: seq<(T, Vec2)>)
    ensures pairs == GridPairs(grid, origin)
  {
    pairs := [];
    for x := 0 to |grid|
      invariant pairs == GridPairs(grid[..x], origin)
    {
      var col := grid[x];
      var at := Vec2(origin.x + x, origin.y);
      for y := 0 to |col|
        invariant pairs == GridPairs(grid[..x], origin) + ColumnPairs(col[..y], at)
      {
        ColumnPairsSnoc(col, at, y);
        pairs := pairs + [(col[y], Vec2(origin.x + x, origin.y + y))];
      }
      assert col[..|col|] == col;
      GridPairsSnoc(grid, origin, x);
    }
    assert grid[..|grid|] == grid;
  }

  /** The element loop of `perfect_rep`: each element's one pattern,
      pushed cell by cell at that element's corner. */
  method PerfectPairs(elements: seq<Element>, chunk: Vec2) returns (pairs: seq<(nat, Vec2)>)
    requires forall i :: 0 <= i < |elements| ==> elements[i].values != []
    ensures pairs == BlockPairs(PerfectBlocks(elements, chunk))
  {
    ghost var blocks := PerfectBlocks(elements, chunk);
    pairs := [];
    for i := 0 to |elements|
      invariant pairs == BlockPairs(blocks[..i])
    {
      var element := elements[i];
      var block := PushGrid(element.values[0].contents, Corner(element.position, chunk));
      BlockPairsSnoc(blocks, i);
      pairs := pairs + block;
    }
    assert blocks[..|elements|] == blocks;
  }

  /** The output of `perfect_rep`: `fill.x * chunk.x` columns of
      `fill.y * chunk.y` cells, with cell (x, y) of each element's one
      remaining pattern at cell (x, y) of that element's chunk. */
  ghost predicate PerfectShown(rep: Grid, elements: seq<Element>, fill: Vec2, chunk: Vec2)
    requires Shaped(elements, chunk) && CompletelyCollapsed(elements)
  {
    && |rep| == fill.x * chunk.x
    && (forall c :: 0 <= c < |rep| ==> |rep[c]| == fill.y * chunk.y)
    && (forall i, x: nat :: 0 <= i < |elements| && x < chunk.x ==> Col(elements[i].position, x, chunk) < |rep|)
    && (forall i, x: nat, y: nat :: 0 <= i < |elements| && x < chunk.x && y < chunk.y ==>
          Row(elements[i].position, y, chunk) < |rep[Col(elements[i].position, x, chunk)]| &&
          rep[Col(elements[i].position, x, chunk)][Row(elements[i].position, y, chunk)] == elements[i].values[0].contents[x][y])
  }

  /** The output of `perfect_rep` once every element has collapsed. */
  method PerfectGrid(elements: seq<Element>, fill: Vec2, chunk: Vec2) returns (rep: Grid)
    requires Layout(elements, fill) && Shaped(elements, chunk) && CompletelyCollapsed(elements)
    ensures PerfectShown(rep, elements, fill, chunk)
  {
    ghost var blocks := PerfectBlocks(elements, chunk);
    var pairs := PerfectPairs(elements, chunk);
    PerfectTiled(elements, fill, chunk);
    rep := Place(pairs, blocks, fill, chunk);
    PerfectCells(elements, fill, chunk, rep);
  }

  /** `perfect_rep`: an error without elements, after a contradiction or
      before complete collapse; otherwise the output grid, which holds cell
      (x, y) of each element's one remaining pattern at cell (x, y) of that
      element's chunk. */
  method PerfectRep(elements: seq<Element>, fill: Vec2, chunk: Vec2) returns (result: Result<Grid>)
    requires Layout(elements, fill) && Shaped(elements, chunk)
    ensures result.Ok? <==> elements != [] && CompletelyCollapsed(elements)
    ensures result.Ok? ==> CompletelyCollapsed(elements) && PerfectShown(result.value, elements, fill, chunk)
  {
    if elements == [] {
      return Err("There are no superpositions to create a representation from");
    }
    if ContradictionOccurred(elements) {
      return Err("A contradiction occurred preventing the formation of a perfect representation");
    }
    if !CompletelyCollapsed(elements) {
      return Err("The superpositions aren't completely collapsed yet");
    }
    var rep := PerfectGrid(elements, fill, chunk);
    return Ok(rep);
  }

  // ----------------------------------------------------------------------
  // `current_rep`

  /** All candidates are `w` by `h` grids. */
  ghost predicate AllRect(values: seq<Pattern>, w: nat, h: nat) {
    forall k :: 0 <= k < |values| ==> IsRect(values[k].contents, w, h)
  }

  /** The candidates' values at cell (cx, cy), in candidate order. */
  function CellValues(values: seq<Pattern>, chunk: Vec2, cx: nat, cy: nat): (r: seq<nat>)
    requires AllRect(values, chunk.x, chunk.y) && cx < chunk.x && cy < chunk.y
    ensures |r| == |values|
    ensures forall k :: 0 <= k < |values| ==> r[k] == values[k].contents[cx][cy]
  {
    seq(|values|, k requires 0 <= k < |values| => values[k].contents[cx][cy])
  }

  /** What `current_rep` shows for a cell: its values sorted, repeats removed. */
  function CellRep(values: seq<Pattern>, chunk: Vec2, cx: nat, cy: nat): seq<nat>
    requires AllRect(values, chunk.x, chunk.y) && cx < chunk.x && cy < chunk.y
  {
    Seqs.Dedup(Seqs.SortBy(CellValues(values, chunk, cx, cy), Orders.NatLe()))
  }

  /** A shown cell is strictly increasing and lists exactly the values some
      candidate has there. */
  lemma {:induction false} CellRepSpec(values: seq<Pattern>, chunk: Vec2, cx: nat, cy: nat)
    requires AllRect(values, chunk.x, chunk.y) && cx < chunk.x && cy < chunk.y
    ensures forall i, j :: 0 <= i < j < |CellRep(values, chunk, cx, cy)| ==>
              CellRep(values, chunk, cx, cy)[i] < CellRep(values, chunk, cx, cy)[j]
    ensures forall n :: n in CellRep(values, chunk, cx, cy) <==>
              exists k :: 0 <= k < |values| && values[k].contents[cx][cy] == n
  {
    var vs := CellValues(values, chunk, cx, cy);
    var sorted := Seqs.SortBy(vs, Orders.NatLe());
    var d := CellRep(values, chunk, cx, cy);
    Orders.GridLeTotalOrder();
    Seqs.SortSorted(vs, Orders.NatLe());
    Seqs.DedupMembers(sorted);
    Seqs.SubseqSorted(d, sorted, Orders.NatLe());
    Orders.SortedDistinct(d, Orders.NatLe());
    forall i, j | 0 <= i < j < |d| ensures d[i] < d[j] {
      assert Orders.NatLe()(d[i], d[j]);
    }
    forall n ensures n in sorted <==> n in vs {
      assert n in multiset(sorted) <==> n in multiset(vs);
    }
  }

  /** Column `cx` of the block `current_rep` shows for one element. */
  function CellColumn(values: seq<Pattern>, chunk: Vec2, cx: nat): (col: seq<seq<nat>>)
    requires AllRect(values, chunk.x, chunk.y) && cx < chunk.x
    ensures |col| == chunk.y
    ensures forall cy :: 0 <= cy < chunk.y ==> col[cy] == CellRep(values, chunk, cx, cy)
  {
    seq(chunk.y, cy requires 0 <= cy < chunk.y => CellRep(values, chunk, cx, cy))
  }

  /** The block `current_rep` shows for one element: a `chunk`-sized grid of shown cells. */
  function CellGrid(values: seq<Pattern>, chunk: Vec2): (g: seq<seq<seq<nat>>>)
    requires AllRect(values, chunk.x, chunk.y)
    ensures IsRect(g, chunk.x, chunk.y)
    ensures forall cx :: 0 <= cx < chunk.x ==> g[cx] == CellColumn(values, chunk, cx)
  {
    seq(chunk.x, cx requires 0 <= cx < chunk.x => CellColumn(values, chunk, cx))
  }

  function CurrentBlocks(elements: seq<Element>, chunk: Vec2): (r: seq<(seq<seq<seq<nat>>>, Vec2)>)
    requires forall i :: 0 <= i < |elements| ==> AllRect(elements[i].values, chunk.x, chunk.y)
    ensures |r| == |elements|
    ensures forall i :: 0 <= i < |elements| ==> r[i] == (CellGrid(elements[i].values, chunk), Corner(elements[i].position, chunk))
  {
    seq(|elements|, i requires 0 <= i < |elements| => (CellGrid(elements[i].values, chunk), Corner(elements[i].position, chunk)))
  }

  lemma {:induction false} CurrentTiled(elements: seq<Element>, fill: Vec2, chunk: Vec2)
    requires Layout(elements, fill) && Shaped(elements, chunk)
    ensures forall i :: 0 <= i < |elements| ==> AllRect(elements[i].values, chunk.x, chunk.y)
    ensures Tiled(CurrentBlocks(elements, chunk), fill, chunk)
  {
    forall i | 0 <= i < |elements| ensures AllRect(elements[i].values, chunk.x, chunk.y) {
      forall k | 0 <= k < |elements[i].values| ensures IsRect(elements[i].values[k].contents, chunk.x, chunk.y) {
        assert elements[i].values[k] in elements[i].values;
      }
    }
    LayoutTiled(elements, fill, chunk, CurrentBlocks(elements, chunk));
  }

  /** The output of `current_rep`, from the tiling of its blocks. */
  lemma {:induction false} CurrentCells(elements: seq<Element>, fill: Vec2, chunk: Vec2, rep: seq<seq<seq<nat>>>)
    requires forall i :: 0 <= i < |elements| ==> AllRect(elements[i].values, chunk.x, chunk.y)
    requires Layout(elements, fill) && Tiled(CurrentBlocks(elements, chunk), fill, chunk)
    requires Shows(rep, CurrentBlocks(elements, chunk), fill, chunk)
    ensures forall c :: 0 <= c < |rep| ==> |rep[c]| == fill.y * chunk.y
    ensures forall i, x: nat :: 0 <= i < |elements| && x < chunk.x ==> Col(elements[i].position, x, chunk) < |rep|
    ensures forall i, x: nat, y: nat :: 0 <= i < |elements| && x < chunk.x && y < chunk.y ==>
              Row(elements[i].position, y, chunk) < |rep[Col(elements[i].position, x, chunk)]| &&
              rep[Col(elements[i].position, x, chunk)][Row(elements[i].position, y, chunk)] == CellRep(elements[i].values, chunk, x, y)
  {
    var blocks := CurrentBlocks(elements, chunk);
    MulIsProduct(fill.y, chunk.y);
    TiledRects(blocks, fill, chunk);
    ElementsOutput(elements, fill, chunk, blocks, rep);
  }

  /** The value loop of `current_rep` for one cell. */
  method CellList(values: seq<Pattern>, chunk: Vec2, cx: nat, cy: nat) returns (list: seq<nat>)
    requires AllRect(values, chunk.x, chunk.y) && cx < chunk.x && cy < chunk.y
    ensures list == CellValues(values, chunk, cx, cy)
  {
    list := [];
    for k := 0 to |values|
      invariant |list| == k
      invariant forall j :: 0 <= j < k ==> list[j] == values[j].contents[cx][cy]
    {
      list := list + [values[k].contents[cx][cy]];
    }
  }

  /** The cell loops of `current_rep` for one element. */
  method PushCells(values: seq<Pattern>, origin: Vec2, chunk: Vec2) returns (pairs: seq<(seq<nat>, Vec2)>)
    requires AllRect(values, chunk.x, chunk.y)
    ensures pairs == GridPairs(CellGrid(values, chunk), origin)
  {
    ghost var grid := CellGrid(values, chunk);
    pairs := [];
    for cx := 0 to chunk.x
      invariant pairs == GridPairs(grid[..cx], origin)
    {
      var column := PushCellColumn(values, chunk, cx, Vec2(origin.x + cx, origin.y));
      GridPairsSnoc(grid, origin, cx);
      pairs := pairs + column;
    }
    assert grid[..chunk.x] == grid;
  }

  /** The inner cell loop of `current_rep`: column `cx` of one element. */
  method PushCellColumn(values: seq<Pattern>, chunk: Vec2, cx: nat, at: Vec2) returns (pairs: seq<(seq<nat>, Vec2)>)
    requires AllRect(values, chunk.x, chunk.y) && cx < chunk.x
    ensures pairs == ColumnPairs(CellColumn(values, chunk, cx), at)
  {
    ghost var col := CellColumn(values, chunk, cx);
    pairs := [];
    for cy := 0 to chunk.y
      invariant pairs == ColumnPairs(col[..cy], at)
    {
      var list := CellList(values, chunk, cx, cy);
      var cell := Seqs.Dedup(Seqs.SortBy(list, Orders.NatLe()));
      ColumnPairsSnoc(col, at, cy);
      pairs := pairs + [(cell, Vec2(at.x, at.y + cy))];
    }
    assert col[..chunk.y] == col;
  }

  /** The element loop of `current_rep`: each element's shown block,
      pushed cell by cell at that element's corner. */
  method CurrentPairs(elements: seq<Element>, chunk: Vec2) returns (pairs: seq<(seq<nat>, Vec2)>)
    requires forall i :: 0 <= i < |elements| ==> AllRect(elements[i].values, chunk.x, chunk.y)
    ensures pairs == BlockPairs(CurrentBlocks(elements, chunk))
  {
    ghost var blocks := CurrentBlocks(elements, chunk);
    pairs := [];
    for i := 0 to |elements|
      invariant pairs == BlockPairs(blocks[..i])
    {
      var element := elements[i];
      var block := PushCells(element.values, Corner(element.position, chunk), chunk);
      BlockPairsSnoc(blocks, i);
      pairs := pairs + block;
    }
    assert blocks[..|elements|] == blocks;
  }

  /** The output of `current_rep`: `fill.x * chunk.x` columns of
      `fill.y * chunk.y` cells, with the sorted, deduplicated values of
      cell (x, y) of each element's candidates at cell (x, y) of that
      element's chunk. */
  ghost predicate CurrentShown(rep: seq<seq<seq<nat>>>, elements: seq<Element>, fill: Vec2, chunk: Vec2)
    requires forall i :: 0 <= i < |elements| ==> AllRect(elements[i].values, chunk.x, chunk.y)
  {
    && |rep| == fill.x * chunk.x
    && (forall c :: 0 <= c < |rep| ==> |rep[c]| == fill.y * chunk.y)
    && (forall i, x: nat :: 0 <= i < |elements| && x < chunk.x ==> Col(elements[i].position, x, chunk) < |rep|)
    && (forall i, x: nat, y: nat :: 0 <= i < |elements| && x < chunk.x && y < chunk.y ==>
          Row(elements[i].position, y, chunk) < |rep[Col(elements[i].position, x, chunk)]| &&
          rep[Col(elements[i].position, x, chunk)][Row(elements[i].position, y, chunk)] == CellRep(elements[i].values, chunk, x, y))
  }

  /** The output of `current_rep` for a wave with elements. */
  method CurrentGrid(elements: seq<Element>, fill: Vec2, chunk: Vec2) returns (rep: seq<seq<seq<nat>>>)
    requires Layout(elements, fill) && Shaped(elements, chunk)
    ensures forall i :: 0 <= i < |elements| ==> AllRect(elements[i].values, chunk.x, chunk.y)
    ensures CurrentShown(rep, elements, fill, chunk)
  {
    CurrentTiled(elements, fill, chunk);
    ghost var blocks := CurrentBlocks(elements, chunk);
    var pairs := CurrentPairs(elements, chunk);
    rep := Place(pairs, blocks, fill, chunk);
    CurrentCells(elements, fill, chunk, rep);
  }

  /** `current_rep`: empty without elements; otherwise the output grid,
      which shows at cell (x, y) of each element's chunk the sorted distinct
      values that element's candidates have at (x, y). */
  method CurrentRep(elements: seq<Element>, fill: Vec2, chunk: Vec2) returns (rep: seq<seq<seq<nat>>>)
    requires Layout(elements, fill) && Shaped(elements, chunk)
    ensures elements == [] ==> rep == []
    ensures forall i :: 0 <= i < |elements| ==> AllRect(elements[i].values, chunk.x, chunk.y)
    ensures elements != [] ==> CurrentShown(rep, elements, fill, chunk)
  {
    CurrentTiled(elements, fill, chunk);
    if elements == [] {
      return [];
    }
    rep := CurrentGrid(elements, fill, chunk);
  }
}
