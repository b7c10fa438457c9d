/** Grids indexed `[x][y]` (a sequence of columns) and the helpers that
    build them: the double loop every scan uses, `arrayify`, the two
    transposes (`xy_swap`, `swap_layers`) and rectangular windows. */
module Grids {
  import opened Geometry
  import opened Arith

  /** What the inner loop `for y in 0..ny` of column `x` pushes: f(x, 0) + ... + f(x, ny - 1). */
  function Column<T>(x: nat, ny: nat, f: (nat, nat) --> seq<T>): seq<T>
    requires forall y :: 0 <= y < ny ==> f.requires(x, y)
  {
    if ny == 0 then [] else Column(x, ny - 1, f) + f(x, ny - 1)
  }

  /** What the double loop `for x in 0..nx { for y in 0..ny { push f(x, y) } }` pushes, in order. */
  function Scan<T>(nx: nat, ny: nat, f: (nat, nat) --> seq<T>): seq<T>
    requires forall x, y :: 0 <= x < nx && 0 <= y < ny ==> f.requires(x, y)
  {
    if nx == 0 then [] else Scan(nx - 1, ny, f) + Column(nx - 1, ny, f)
  }

  lemma {:induction false} ColumnSingletons<T>(x: nat, ny: nat, f: (nat, nat) --> seq<T>)
    requires forall y :: 0 <= y < ny ==> f.requires(x, y) && |f(x, y)| == 1
    ensures |Column(x, ny, f)| == ny
    ensures forall y :: 0 <= y < ny ==> Column(x, ny, f)[y] == f(x, y)[0]
  {
    if ny > 0 {
      ColumnSingletons(x, ny - 1, f);
    }
  }

  /** When every step pushes one item, the scan holds `nx * ny` items. */
  lemma {:induction false} ScanLength<T>(nx: nat, ny: nat, f: (nat, nat) --> seq<T>)
    requires forall x, y :: 0 <= x < nx && 0 <= y < ny ==> f.requires(x, y) && |f(x, y)| == 1
    ensures |Scan(nx, ny, f)| == Mul(nx, ny)
  {
    if nx == 0 {
      assert Scan(nx, ny, f) == [];
    } else {
      assert Scan(nx, ny, f) == Scan(nx - 1, ny, f) + Column(nx - 1, ny, f);
      ScanLength(nx - 1, ny, f);
      ColumnSingletons(nx - 1, ny, f);
    }
  }

  /** ... and the item for step `(x, y)` sits at `x * ny + y` (x-major order). */
  lemma {:induction false} ScanIndex<T>(nx: nat, ny: nat, f: (nat, nat) --> seq<T>, x: nat, y: nat)
    requires forall x, y :: 0 <= x < nx && 0 <= y < ny ==> f.requires(x, y) && |f(x, y)| == 1
    requires x < nx && y < ny
    ensures Flat(x, y, ny) < |Scan(nx, ny, f)|
    ensures Scan(nx, ny, f)[Flat(x, y, ny)] == f(x, y)[0]
  {
    var a, b := Scan(nx - 1, ny, f), Column(nx - 1, ny, f);
    assert Scan(nx, ny, f) == a + b;
    ScanLength(nx - 1, ny, f);
    ColumnSingletons(nx - 1, ny, f);
    if x < nx - 1 {
      ScanIndex(nx - 1, ny, f, x, y);
      assert (a + b)[Flat(x, y, ny)] == a[Flat(x, y, ny)];
    } else {
      assert (a + b)[Flat(x, y, ny)] == b[y];
    }
  }

  /** An item is pushed by the scan exactly when some step `(x, y)` pushes it. */
  lemma ScanMembers<T>(nx: nat, ny: nat, f: (nat, nat) --> seq<T>, t: T)
    requires forall x, y :: 0 <= x < nx && 0 <= y < ny ==> f.requires(x, y)
    ensures t in Scan(nx, ny, f) <==> exists x, y :: 0 <= x < nx && 0 <= y < ny && t in f(x, y)
  {
    if t in Scan(nx, ny, f) {
      ScanSound(nx, ny, f, t);
    }
    if exists x, y :: 0 <= x < nx && 0 <= y < ny && t in f(x, y) {
      var x, y :| 0 <= x < nx && 0 <= y < ny && t in f(x, y);
      ScanComplete(nx, ny, f, t, x, y);
    }
  }

  /** Whatever step `(x, y)` pushes is in the column ... */
  lemma {:induction false} ColumnComplete<T>(x: nat, ny: nat, f: (nat, nat) --> seq<T>, t: T, y: nat)
    requires forall y :: 0 <= y < ny ==> f.requires(x, y)
    requires y < ny && t in f(x, y)
    ensures t in Column(x, ny, f)
  {
    var a, b := Column(x, ny - 1, f), f(x, ny - 1);
    assert Column(x, ny, f) == a + b;
    if y < ny - 1 {
      ColumnComplete(x, ny - 1, f, t, y);
    }
  }

  /** ... and in the scan. */
  lemma {:induction false} ScanComplete<T>(nx: nat, ny: nat, f: (nat, nat) --> seq<T>, t: T, x: nat, y: nat)
    requires forall x, y :: 0 <= x < nx && 0 <= y < ny ==> f.requires(x, y)
    requires x < nx && y < ny && t in f(x, y)
    ensures t in Scan(nx, ny, f)
  {
    var a, b := Scan(nx - 1, ny, f), Column(nx - 1, ny, f);
    assert Scan(nx, ny, f) == a + b;
    if x < nx - 1 {
      ScanComplete(nx - 1, ny, f, t, x, y);
    } else {
      ColumnComplete(nx - 1, ny, f, t, y);
    }
  }

  /** Everything in a column was pushed by one of its steps ... */
  lemma {:induction false} ColumnSound<T>(x: nat, ny: nat, f: (nat, nat) --> seq<T>, t: T)
    requires forall y :: 0 <= y < ny ==> f.requires(x, y)
    requires t in Column(x, ny, f)
    ensures exists y :: 0 <= y < ny && t in f(x, y)
  {
    var a, b := Column(x, ny - 1, f), f(x, ny - 1);
    assert Column(x, ny, f) == a + b;
    if t in a {
      ColumnSound(x, ny - 1, f, t);
      var y :| 0 <= y < ny - 1 && t in f(x, y);
      assert 0 <= y < ny && t in f(x, y);
    } else {
      assert t in f(x, ny - 1);
    }
  }

  /** ... and everything in a scan too. */
  lemma {:induction false} ScanSound<T>(nx: nat, ny: nat, f: (nat, nat) --> seq<T>, t: T)
    requires forall x, y :: 0 <= x < nx && 0 <= y < ny ==> f.requires(x, y)
    requires t in Scan(nx, ny, f)
    ensures exists x, y :: 0 <= x < nx && 0 <= y < ny && t in f(x, y)
  {
    var a, b := Scan(nx - 1, ny, f), Column(nx - 1, ny, f);
    assert Scan(nx, ny, f) == a + b;
    if t in a {
      ScanSound(nx - 1, ny, f, t);
      var x, y :| 0 <= x < nx - 1 && 0 <= y < ny && t in f(x, y);
      assert 0 <= x < nx && 0 <= y < ny && t in f(x, y);
    } else {
      ColumnSound(nx - 1, ny, f, t);
      var y :| 0 <= y < ny && t in f(nx - 1, y);
      assert 0 <= nx - 1 < nx && 0 <= y < ny && t in f(nx - 1, y);
    }
  }

  /** A column whose steps past `ny2` push nothing, and whose other steps
      agree with `g`, is the shorter column of `g`. */
  lemma {:induction false} ColumnRestrict<T>(x: nat, ny: nat, f: (nat, nat) --> seq<T>, ny2: nat, g: (nat, nat) --> seq<T>)
    requires ny2 <= ny
    requires forall y :: 0 <= y < ny ==> f.requires(x, y)
    requires forall y :: 0 <= y < ny2 ==> g.requires(x, y) && g(x, y) == f(x, y)
    requires forall y :: ny2 <= y < ny ==> f(x, y) == []
    ensures Column(x, ny, f) == Column(x, ny2, g)
  {
    if ny > ny2 {
      ColumnRestrict(x, ny - 1, f, ny2, g);
    } else if ny > 0 {
      ColumnRestrict(x, ny - 1, f, ny - 1, g);
    }
  }

  /** A scan whose steps outside the `nx2` x `ny2` corner push nothing, and
      whose steps inside agree with `g`, is the smaller scan of `g`. */
  lemma {:induction false} ScanRestrict<T>(nx: nat, ny: nat, f: (nat, nat) --> seq<T>, nx2: nat, ny2: nat, g: (nat, nat) --> seq<T>)
    requires nx2 <= nx && ny2 <= ny
    requires forall x, y :: 0 <= x < nx && 0 <= y < ny ==> f.requires(x, y)
    requires forall x, y :: 0 <= x < nx2 && 0 <= y < ny2 ==> g.requires(x, y) && g(x, y) == f(x, y)
    requires forall x, y :: 0 <= x < nx && 0 <= y < ny && (nx2 <= x || ny2 <= y) ==> f(x, y) == []
    ensures Scan(nx, ny, f) == Scan(nx2, ny2, g)
  {
    if nx > nx2 {
      ScanRestrict(nx - 1, ny, f, nx2, ny2, g);
      ColumnRestrict(nx - 1, ny, f, 0, g);
    } else if nx > 0 {
      ScanRestrict(nx - 1, ny, f, nx - 1, ny2, g);
      ColumnRestrict(nx - 1, ny, f, ny2, g);
    }
  }

  /** The values of `pairs` whose location lies in column `c`, in arrival order. */
  function ColumnOf<T>(pairs: seq<(T, Vec2)>, c: nat): seq<T>
  {
    ColumnUpTo(pairs, c, |pairs|)
  }

  /** The same, among the first `k` pairs only. */
  function ColumnUpTo<T>(pairs: seq<(T, Vec2)>, c: nat, k: nat): seq<T>
    requires k <= |pairs|
  {
    if k == 0 then []
    else ColumnUpTo(pairs, c, k - 1) + (if pairs[k - 1].1.x == c then [pairs[k - 1].0] else [])
  }

  lemma ColumnOfAppend<T>(a: seq<(T, Vec2)>, b: seq<(T, Vec2)>, c: nat)
    ensures ColumnOf(a + b, c) == ColumnOf(a, c) + ColumnOf(b, c)
  {
    UpToAppend(a, b, c, |b|);
  }

  /** Past the end of `a`, the pairs of `a + b` add those of `b` ... */
  lemma {:induction false} UpToAppend<T>(a: seq<(T, Vec2)>, b: seq<(T, Vec2)>, c: nat, k: nat)
    requires k <= |b|
    ensures ColumnUpTo(a + b, c, |a| + k) == ColumnOf(a, c) + ColumnUpTo(b, c, k)
  {
    if k == 0 {
      UpToPrefix(a, b, c, |a|);
    } else {
      UpToAppend(a, b, c, k - 1);
      assert (a + b)[|a| + k - 1] == b[k - 1];
    }
  }

  /** ... and up to its end they are those of `a`. */
  lemma {:induction false} UpToPrefix<T>(a: seq<(T, Vec2)>, b: seq<(T, Vec2)>, c: nat, k: nat)
    requires k <= |a|
    ensures ColumnUpTo(a + b, c, k) == ColumnUpTo(a, c, k)
  {
    if k > 0 {
      UpToPrefix(a, b, c, k - 1);
      assert (a + b)[k - 1] == a[k - 1];
    }
  }

  /** `arrayify`: `size.x` columns; each value is appended to the column of
      its location, so column `c` holds the values located in it, in the
      order they arrive.  A location outside the columns panics. */
  method Arrayify<T>(input: seq<(T, Vec2)>, size: Vec2) returns (formatted: seq<seq<T>>)
    requires forall i :: 0 <= i < |input| ==> input[i].1.x < size.x
    ensures |formatted| == size.x
    ensures forall c :: 0 <= c < size.x ==> formatted[c] == ColumnOf(input, c)
  {
    formatted := [];
    var i := 0;
    while i < size.x
      invariant 0 <= i <= size.x
      invariant |formatted| == i
      invariant forall c :: 0 <= c < i ==> formatted[c] == []
    {
      formatted := formatted + [[]];
      i := i + 1;
    }
    var k := 0;
    while k < |input|
      invariant 0 <= k <= |input|
      invariant |formatted| == size.x
      invariant forall c :: 0 <= c < size.x ==> formatted[c] == ColumnUpTo(input, c, k)
    {
      var (value, loc) := input[k];
      formatted := formatted[loc.x := formatted[loc.x] + [value]];
      k := k + 1;
    }
  }

  /** The pairs of row `r` of a row-major loop, columns `0..k`: `g(r, c)`
      recorded at the swapped location (c, r). */
  function RowPairs<T>(g: (nat, nat) -> T, r: nat, k: nat): seq<(T, Vec2)>
  {
    if k == 0 then [] else RowPairs(g, r, k - 1) + [(g(r, k - 1), Vec2(k - 1, r))]
  }

  /** The pairs of rows `0..n` of a row-major loop over `cols` columns. */
  function RowMajor<T>(g: (nat, nat) -> T, n: nat, cols: nat): seq<(T, Vec2)>
  {
    if n == 0 then [] else RowMajor(g, n - 1, cols) + RowPairs(g, n - 1, cols)
  }

  /** Every location of a row-major list lies in one of its columns. */
  lemma {:induction false} RowMajorInColumns<T>(g: (nat, nat) -> T, n: nat, cols: nat, p: (T, Vec2))
    requires p in RowMajor(g, n, cols)
    ensures p.1.x < cols
  {
    var a, b := RowMajor(g, n - 1, cols), RowPairs(g, n - 1, cols);
    assert RowMajor(g, n, cols) == a + b;
    if p in a {
      RowMajorInColumns(g, n - 1, cols, p);
    } else {
      RowPairsInColumns(g, n - 1, cols, p);
    }
  }

  lemma {:induction false} RowPairsInColumns<T>(g: (nat, nat) -> T, r: nat, k: nat, p: (T, Vec2))
    requires p in RowPairs(g, r, k)
    ensures p.1.x < k
  {
    var a := RowPairs(g, r, k - 1);
    assert RowPairs(g, r, k) == a + [(g(r, k - 1), Vec2(k - 1, r))];
    if p in a {
      RowPairsInColumns(g, r, k - 1, p);
    }
  }

  /** Arrayifying a row-major enumeration transposes it: column `c` collects
      `g(r, c)` for every row `r` in order. */
  lemma ArrayifyRowMajor<T>(rows: nat, cols: nat, g: (nat, nat) -> T, c: nat)
    requires c < cols
    ensures |ColumnOf(RowMajor(g, rows, cols), c)| == rows
    ensures forall r :: 0 <= r < rows ==> ColumnOf(RowMajor(g, rows, cols), c)[r] == g(r, c)
  {
    RowMajorLength(g, rows, cols, c);
    forall r | 0 <= r < rows
      ensures ColumnOf(RowMajor(g, rows, cols), c)[r] == g(r, c)
    {
      RowMajorEntry(g, rows, cols, c, r);
    }
  }

  /** Column `c` of the first `n` rows holds one entry per row ... */
  lemma {:induction false} RowMajorLength<T>(g: (nat, nat) -> T, n: nat, cols: nat, c: nat)
    requires c < cols
    ensures |ColumnOf(RowMajor(g, n, cols), c)| == n
  {
    if n == 0 {
      assert RowMajor(g, n, cols) == [];
    } else {
      RowMajorLength(g, n - 1, cols, c);
      RowMajorAppend(g, n, cols, c);
    }
  }

  /** ... and its `r`-th entry is row `r`'s. */
  lemma {:induction false} RowMajorEntry<T>(g: (nat, nat) -> T, n: nat, cols: nat, c: nat, r: nat)
    requires c < cols && r < n
    ensures r < |ColumnOf(RowMajor(g, n, cols), c)|
    ensures ColumnOf(RowMajor(g, n, cols), c)[r] == g(r, c)
  {
    RowMajorAppend(g, n, cols, c);
    if r == n - 1 {
      RowMajorLength(g, n - 1, cols, c);
    } else {
      RowMajorEntry(g, n - 1, cols, c, r);
    }
  }

  /** Row `n - 1` adds its entry in column `c` to that column. */
  lemma RowMajorAppend<T>(g: (nat, nat) -> T, n: nat, cols: nat, c: nat)
    requires n > 0 && c < cols
    ensures ColumnOf(RowMajor(g, n, cols), c) == ColumnOf(RowMajor(g, n - 1, cols), c) + [g(n - 1, c)]
  {
    var a, b := RowMajor(g, n - 1, cols), RowPairs(g, n - 1, cols);
    assert RowMajor(g, n, cols) == a + b;
    ColumnOfAppend(a, b, c);
    RowPairsColumn(g, n - 1, cols, c);
  }

  /** Row `r` has one entry in column `c` when `c < k`, and none otherwise. */
  lemma {:induction false} RowPairsColumn<T>(g: (nat, nat) -> T, r: nat, k: nat, c: nat)
    ensures ColumnOf(RowPairs(g, r, k), c) == if c < k then [g(r, c)] else []
  {
    if k == 0 {
      assert RowPairs(g, r, k) == [];
    } else {
      var a, b := RowPairs(g, r, k - 1), [(g(r, k - 1), Vec2(k - 1, r))];
      assert RowPairs(g, r, k) == a + b;
      RowPairsColumn(g, r, k - 1, c);
      ColumnOfAppend(a, b, c);
      assert ColumnUpTo(b, c, 0) == [];
    }
  }

  /** The input of the `arrayify` test: twelve values listed column by column. */
  function TwelveInput(): seq<(nat, Vec2)> {
    [(0, Vec2(0, 0)), (1, Vec2(0, 1)), (2, Vec2(0, 2)),
     (3, Vec2(1, 0)), (4, Vec2(1, 1)), (5, Vec2(1, 2)),
     (6, Vec2(2, 0)), (7, Vec2(2, 1)), (8, Vec2(2, 2)),
     (9, Vec2(3, 0)), (10, Vec2(3, 1)), (11, Vec2(3, 2))]
  }

  /** The `arrayify` test: with size (4, 3) the columns are [0,1,2],
      [3,4,5], [6,7,8] and [9,10,11]. */
  lemma ArrayifyTwelve(c: nat)
    requires c < 4
    ensures ColumnOf(TwelveInput(), c) == [3 * c, 3 * c + 1, 3 * c + 2]
  {
    TwelveSplit();
    TwelveColumns(c);
  }

  lemma TwelveSplit()
    ensures TwelveInput() == Listed(0, 0) + Listed(1, 3) + Listed(2, 6) + Listed(3, 9)
  {
  }

  lemma TwelveColumns(c: nat)
    requires c < 4
    ensures ColumnOf(Listed(0, 0) + Listed(1, 3) + Listed(2, 6) + Listed(3, 9), c) == [3 * c, 3 * c + 1, 3 * c + 2]
  {
    var q0, q1, q2, q3 := Listed(0, 0), Listed(1, 3), Listed(2, 6), Listed(3, 9);
    ColumnOfAppend(q0 + q1 + q2, q3, c);
    ColumnOfAppend(q0 + q1, q2, c);
    ColumnOfAppend(q0, q1, c);
    var col := [3 * c, 3 * c + 1, 3 * c + 2];
    ListedColumn(c, 3 * c, c);
    if c == 0 {
      ListedApart(1, 3, c); ListedApart(2, 6, c); ListedApart(3, 9, c);
      assert ColumnOf(q0 + q1 + q2 + q3, c) == col + [] + [] + [];
    } else if c == 1 {
      ListedApart(0, 0, c); ListedApart(2, 6, c); ListedApart(3, 9, c);
      assert ColumnOf(q0 + q1 + q2 + q3, c) == [] + col + [] + [];
    } else if c == 2 {
      ListedApart(0, 0, c); ListedApart(1, 3, c); ListedApart(3, 9, c);
      assert ColumnOf(q0 + q1 + q2 + q3, c) == [] + [] + col + [];
    } else {
      ListedApart(0, 0, c); ListedApart(1, 3, c); ListedApart(2, 6, c);
      assert ColumnOf(q0 + q1 + q2 + q3, c) == [] + [] + [] + col;
    }
  }

  /** Column `x` of the test input: the values `v`, `v + 1`, `v + 2` at rows 0 to 2. */
  function Listed(x: nat, v: nat): seq<(nat, Vec2)> {
    [(v, Vec2(x, 0)), (v + 1, Vec2(x, 1)), (v + 2, Vec2(x, 2))]
  }

  lemma ListedApart(x: nat, v: nat, c: nat)
    requires x != c
    ensures ColumnOf(Listed(x, v), c) == []
  {
    ListedColumn(x, v, c);
  }

  lemma ListedColumn(x: nat, v: nat, c: nat)
    ensures ColumnOf(Listed(x, v), c) == if x == c then [v, v + 1, v + 2] else []
  {
    var l := Listed(x, v);
    assert ColumnUpTo(l, c, 0) == [];
    assert ColumnUpTo(l, c, 1) == if x == c then [v] else [];
    assert ColumnUpTo(l, c, 2) == if x == c then [v, v + 1] else [];
  }

  /** The entry of `input` at row `r`, column `c`, as `xy_swap` reads it
      (`d` off the input, where the loop never reads). */
  function RowEntry<T>(input: seq<seq<T>>, d: T): (nat, nat) -> T {
    (r: nat, c: nat) => if r < |input| && c < |input[r]| then input[r][c] else d
  }

  /** `xy_swap`: lists every entry of the first `input[0].len()` columns of
      each row with its swapped location and arrayifies the list, so
      `out[c][r] == input[r][c]`.  Indexing `input[0]` panics on an empty
      input, and a row shorter than the first one panics too. */
  method XySwap<T(0)>(input: seq<seq<T>>) returns (out: seq<seq<T>>)
    requires input != []
    requires forall r :: 0 <= r < |input| ==> |input[0]| <= |input[r]|
    ensures |out| == |input[0]|
    ensures forall c :: 0 <= c < |out| ==> |out[c]| == |input|
    ensures forall c, r :: 0 <= c < |out| && 0 <= r < |input| ==> out[c][r] == input[r][c]
  {
    var rlen := |input|;
    var clen := |input[0]|;
    var d: T := *;  // any value: the loops read only inside the input
    var g := RowEntry(input, d);
    var list := PushRowMajor(g, rlen, clen);
    forall i | 0 <= i < |list| ensures list[i].1.x < clen {
      RowMajorInColumns(g, rlen, clen, list[i]);
    }
    out := Arrayify(list, Vec2(clen, rlen));
    forall c | 0 <= c < clen ensures |out[c]| == rlen && forall r :: 0 <= r < rlen ==> out[c][r] == input[r][c] {
      ArrayifyRowMajor(rlen, clen, g, c);
    }
  }

  /** The double loop of `xy_swap` and `chunk_content`: for each row `r`,
      for each column `c`, the entry `g(r, c)` with the swapped location
      (c, r). */
  method PushRowMajor<T>(g: (nat, nat) -> T, rows: nat, cols: nat) returns (list: seq<(T, Vec2)>)
    ensures list == RowMajor(g, rows, cols)
  {
    list := [];
    for r := 0 to rows
      invariant list == RowMajor(g, r, cols)
    {
      var row := PushRow(g, r, cols);
      list := list + row;
    }
  }

  /** The inner loop of `PushRowMajor`: row `r`, column by column. */
  method PushRow<T>(g: (nat, nat) -> T, r: nat, cols: nat) returns (row: seq<(T, Vec2)>)
    ensures row == RowPairs(g, r, cols)
  {
    row := [];
    for c := 0 to cols
      invariant row == RowPairs(g, r, c)
    {
      row := row + [(g(r, c), Vec2(c, r))];
    }
  }

  /** The entries `rows[r][c]` of every row long enough to have a column `c`, in row order. */
  function Gather<T>(rows: seq<seq<T>>, c: nat): (r: seq<T>)
    ensures |r| <= |rows|
    ensures (forall k :: 0 <= k < |rows| ==> c < |rows[k]|) ==>
              |r| == |rows| && forall k :: 0 <= k < |rows| ==> r[k] == rows[k][c]
  {
    if rows == [] then []
    else Gather(rows[..|rows| - 1], c) + (if c < |rows[|rows| - 1]| then [rows[|rows| - 1][c]] else [])
  }

  /** `swap_layers`: for each column index of the first row, walks every row
      and keeps its entry at that index.  Indexing `input[0]` panics on an
      empty input. */
  method SwapLayers<T>(input: seq<seq<T>>) returns (out: seq<seq<T>>)
    requires input != []
    ensures |out| == |input[0]|
    ensures forall c :: 0 <= c < |out| ==> out[c] == Gather(input, c)
  {
    out := [];
    var ci1 := 0;
    while ci1 < |input[0]|
      invariant 0 <= ci1 <= |input[0]|
      invariant |out| == ci1
      invariant forall c :: 0 <= c < ci1 ==> out[c] == Gather(input, c)
    {
      var column := [];
      var r := 0;
      while r < |input|
        invariant 0 <= r <= |input|
        invariant column == Gather(input[..r], ci1)
      {
        var row := input[r];
        var ci2 := 0;
        var found := [];
        while ci2 < |row|
          invariant 0 <= ci2 <= |row|
          invariant found == if ci1 < ci2 then [row[ci1]] else []
        {
          if ci2 == ci1 {
            found := found + [row[ci2]];
          }
          ci2 := ci2 + 1;
        }
        assert input[..r + 1][..r] == input[..r];
        column := column + found;
        r := r + 1;
      }
      assert input[..r] == input;
      out := out + [column];
      ci1 := ci1 + 1;
    }
  }

  /** A transpose of a rectangular grid: `out[c][r] == input[r][c]`. */
  lemma SwapLayersTransposes<T>(input: seq<seq<T>>, out: seq<seq<T>>)
    requires input != []
    requires forall r :: 0 <= r < |input| ==> |input[r]| == |input[0]|
    requires |out| == |input[0]|
    requires forall c :: 0 <= c < |out| ==> out[c] == Gather(input, c)
    ensures forall c :: 0 <= c < |out| ==> |out[c]| == |input|
    ensures forall c, r :: 0 <= c < |out| && 0 <= r < |input| ==> out[c][r] == input[r][c]
  {
  }

  /** The chunk window whose first column is `ox` and first row is `oy` fits in `input`. */
  ghost predicate Fits<T>(input: seq<seq<T>>, ox: nat, oy: nat, cw: nat, ch: nat) {
    ox + cw <= |input| && forall i :: ox <= i < ox + cw ==> oy + ch <= |input[i]|
  }

  /** The `cw` x `ch` window of `input` at origin (ox, oy), indexed `[x][y]`. */
  function Window<T>(input: seq<seq<T>>, ox: nat, oy: nat, cw: nat, ch: nat): (w: seq<seq<T>>)
    requires Fits(input, ox, oy, cw, ch)
    ensures IsRect(w, cw, ch)
  {
    seq(cw, ix requires 0 <= ix < cw => seq(ch, iy requires 0 <= iy < ch => input[ox + ix][oy + iy]))
  }
}
