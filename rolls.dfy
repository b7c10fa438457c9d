/** Cyclic shifts of a grid: `roll` (identical in wfc/src/helpers.rs and
    src/helpers.rs) and the prototype's `all_possible_shifts`.

    As written, one roll step reads `out[r][c] = in[r'][c']` where the row
    wraps to `input[0].len() - 1` and the column wraps to `input.len() - 1`:
    each axis wraps with the OTHER axis's length.  That is a cyclic shift
    only on square grids; `CyclicStep` is the intended shift. */
module Rolls {
  import opened Geometry
  import opened Arith
  import opened Seqs

  /** One step back along an axis, wrapping from 0 to `wrapTo - 1`; the identity when `on` is false. */
  function WrapBack(i: nat, wrapTo: nat, on: bool): nat
    requires on && i == 0 ==> wrapTo > 0
  {
    if !on then i else if i == 0 then wrapTo - 1 else i - 1
  }

  /** Width of a grid's rows, as `dimensions_of(..).y` reports it. */
  function RowLen<T>(g: seq<seq<T>>): nat {
    DimensionsOf(g).y
  }

  /** The source's indexing stays inside a rectangular grid: the row index
      wraps to `RowLen - 1`, which must be a row, and the column index wraps
      to `|g| - 1`, which must be a column. */
  ghost predicate RollSafe<T>(g: seq<seq<T>>, xAxis: bool, yAxis: bool) {
    IsRect(g, |g|, RowLen(g)) &&
    (yAxis && |g| > 0 && RowLen(g) > 0 ==> RowLen(g) <= |g|) &&
    (xAxis && |g| > 0 && RowLen(g) > 0 ==> |g| <= RowLen(g))
  }

  /** One pass of the shift loop of `roll`, as written. */
  function RollStep<T>(g: seq<seq<T>>, xAxis: bool, yAxis: bool): (out: seq<seq<T>>)
    requires RollSafe(g, xAxis, yAxis)
    ensures IsRect(out, |g|, RowLen(g)) && RowLen(out) == RowLen(g)
  {
    var R, C := |g|, RowLen(g);
    seq(R, r requires 0 <= r < R =>
      seq(C, c requires 0 <= c < C => g[WrapBack(r, C, yAxis)][WrapBack(c, R, xAxis)]))
  }

  /** `shifts` passes of the loop. */
  function RollN<T>(g: seq<seq<T>>, shifts: nat, xAxis: bool, yAxis: bool): (out: seq<seq<T>>)
    requires RollSafe(g, xAxis, yAxis)
    ensures RollSafe(out, xAxis, yAxis) && |out| == |g| && RowLen(out) == RowLen(g)
  {
    if shifts == 0 then g else RollStep(RollN(g, shifts - 1, xAxis, yAxis), xAxis, yAxis)
  }

  /** One pass of `roll`: every entry is overwritten from `copy`. */
  method RollPass<T>(copy: seq<seq<T>>, xAxis: bool, yAxis: bool) returns (out: seq<seq<T>>)
    requires RollSafe(copy, xAxis, yAxis)
    ensures out == RollStep(copy, xAxis, yAxis)
  {
    var size := DimensionsOf(copy);
    ghost var step := RollStep(copy, xAxis, yAxis);
    out := copy;
    var r := 0;
    while r < |out|
      invariant 0 <= r <= |copy| && |out| == |copy|
      invariant forall i :: 0 <= i < r ==> out[i] == step[i]
      invariant forall i :: r <= i < |out| ==> out[i] == copy[i]
    {
      var row := out[r];
      var c := 0;
      while c < |row|
        invariant |row| == size.y && 0 <= c <= size.y
        invariant forall j :: 0 <= j < c ==> row[j] == step[r][j]
      {
        var sr := if yAxis then (if r == 0 then size.y - 1 else r - 1) else r;
        var sc := if xAxis then (if c == 0 then size.x - 1 else c - 1) else c;
        assert sr == WrapBack(r, RowLen(copy), yAxis) && sc == WrapBack(c, |copy|, xAxis);
        assert step[r][c] == copy[sr][sc];
        row := row[c := copy[sr][sc]];
        c := c + 1;
      }
      out := out[r := row];
      r := r + 1;
    }
  }

  /** `roll`: `shifts` passes, each reading from a copy taken at its start. */
  method Roll<T>(input: seq<seq<T>>, shifts: nat, xAxis: bool, yAxis: bool) returns (out: seq<seq<T>>)
    requires RollSafe(input, xAxis, yAxis)
    ensures out == RollN(input, shifts, xAxis, yAxis)
  {
    out := input;
    var pass := 0;
    while pass < shifts
      invariant 0 <= pass <= shifts
      invariant out == RollN(input, pass, xAxis, yAxis)
    {
      var copy := out;
      out := RollPass(copy, xAxis, yAxis);
      pass := pass + 1;
    }
  }

  /** The grid of the `roll` test and the grids it expects after one step
      along x, another along x, then one along y. */
  function TestGrid(n: nat): seq<seq<nat>> {
    if n == 0 then [[0, 0, 1, 1], [1, 1, 0, 0], [0, 1, 1, 0], [1, 0, 0, 1]]
    else if n == 1 then [[1, 0, 0, 1], [0, 1, 1, 0], [0, 0, 1, 1], [1, 1, 0, 0]]
    else if n == 2 then [[1, 1, 0, 0], [0, 0, 1, 1], [1, 0, 0, 1], [0, 1, 1, 0]]
    else [[0, 1, 1, 0], [1, 1, 0, 0], [0, 0, 1, 1], [1, 0, 0, 1]]
  }

  /** The test of `roll` on a 4 x 4 grid. */
  lemma RollTest()
    ensures RollStep(TestGrid(0), true, false) == TestGrid(1)
    ensures RollStep(TestGrid(1), true, false) == TestGrid(2)
    ensures RollStep(TestGrid(2), false, true) == TestGrid(3)
  {
    RollTestFirst();
    RollTestSecond();
    RollTestThird();
  }

  lemma FourByFour<T>(g: seq<seq<T>>)
    requires |g| == 4 && |g[0]| == 4 && |g[1]| == 4 && |g[2]| == 4 && |g[3]| == 4
    ensures RollSafe(g, true, false) && RollSafe(g, false, true) && RowLen(g) == 4
  {
    forall i | 0 <= i < 4 ensures |g[i]| == 4 {
      if i == 0 {} else if i == 1 {} else if i == 2 {} else {}
    }
  }

  lemma RollTestFirst()
    ensures RollStep(TestGrid(0), true, false) == TestGrid(1)
  {
    var g := TestGrid(0);
    FourByFour(g);
    var out := RollStep(g, true, false);
    Four(out[0], 1, 0, 0, 1);
    Four(out[1], 0, 1, 1, 0);
    Four(out[2], 0, 0, 1, 1);
    Four(out[3], 1, 1, 0, 0);
    Four(out, [1, 0, 0, 1], [0, 1, 1, 0], [0, 0, 1, 1], [1, 1, 0, 0]);
  }

  lemma RollTestSecond()
    ensures RollStep(TestGrid(1), true, false) == TestGrid(2)
  {
    var g := TestGrid(1);
    FourByFour(g);
    var out := RollStep(g, true, false);
    Four(out[0], 1, 1, 0, 0);
    Four(out[1], 0, 0, 1, 1);
    Four(out[2], 1, 0, 0, 1);
    Four(out[3], 0, 1, 1, 0);
    Four(out, [1, 1, 0, 0], [0, 0, 1, 1], [1, 0, 0, 1], [0, 1, 1, 0]);
  }

  lemma RollTestThird()
    ensures RollStep(TestGrid(2), false, true) == TestGrid(3)
  {
    var g := TestGrid(2);
    FourByFour(g);
    var out := RollStep(g, false, true);
    Four(out[0], 0, 1, 1, 0);
    Four(out[1], 1, 1, 0, 0);
    Four(out[2], 0, 0, 1, 1);
    Four(out[3], 1, 0, 0, 1);
    Four(out, [0, 1, 1, 0], [1, 1, 0, 0], [0, 0, 1, 1], [1, 0, 0, 1]);
  }

  /** On a 2 x 3 grid a step along x is not a rotation of each row: the
      first entry of a row is copied from index `|g| - 1 == 1` instead of
      the last column. */
  lemma RollStepNotCyclicOnWideGrid()
    ensures RollStep([[0, 1, 2], [3, 4, 5]], true, false) == [[1, 0, 1], [4, 3, 4]]
    ensures CyclicStep([[0, 1, 2], [3, 4, 5]], true, false) == [[2, 0, 1], [5, 3, 4]]
  {
    var g := [[0, 1, 2], [3, 4, 5]];
    var s := RollStep(g, true, false);
    Three(s[0], 1, 0, 1);
    Three(s[1], 4, 3, 4);
    Two(s, [1, 0, 1], [4, 3, 4]);
    var t := CyclicStep(g, true, false);
    Three(t[0], 2, 0, 1);
    Three(t[1], 5, 3, 4);
    Two(t, [2, 0, 1], [5, 3, 4]);
  }

  /** The intended step: each axis wraps with its own length. */
  function CyclicStep<T>(g: seq<seq<T>>, xAxis: bool, yAxis: bool): (out: seq<seq<T>>)
    requires IsRect(g, |g|, RowLen(g))
    ensures IsRect(out, |g|, RowLen(g)) && RowLen(out) == RowLen(g)
  {
    var R, C := |g|, RowLen(g);
    seq(R, r requires 0 <= r < R =>
      seq(C, c requires 0 <= c < C => g[WrapBack(r, R, yAxis)][WrapBack(c, C, xAxis)]))
  }

  function CyclicN<T>(g: seq<seq<T>>, shifts: nat, xAxis: bool, yAxis: bool): (out: seq<seq<T>>)
    requires IsRect(g, |g|, RowLen(g))
    ensures IsRect(out, |g|, RowLen(g)) && RowLen(out) == RowLen(g)
  {
    if shifts == 0 then g else CyclicStep(CyclicN(g, shifts - 1, xAxis, yAxis), xAxis, yAxis)
  }

  /** The amount an axis moves after `k` steps. */
  function Moved(k: nat, on: bool): nat {
    if on then k else 0
  }

  lemma ModStep(i: nat, n: nat, k: nat)
    requires 0 < n && i < n && k >= 1
    ensures (WrapBack(i, n, true) - (k - 1)) % n == (i - k) % n
  {
    if i == 0 {
      ModShift(-(k as int), n);
    }
  }

  /** After `k` intended steps every entry comes from `k` places back along
      each rolled axis, cyclically. */
  lemma {:induction false} CyclicNEntries<T>(g: seq<seq<T>>, k: nat, xAxis: bool, yAxis: bool)
    requires IsRect(g, |g|, RowLen(g))
    ensures forall r, c :: 0 <= r < |g| && 0 <= c < RowLen(g) ==>
              CyclicN(g, k, xAxis, yAxis)[r][c] ==
              g[(r - Moved(k, yAxis)) % |g|][(c - Moved(k, xAxis)) % RowLen(g)]
  {
    forall r, c | 0 <= r < |g| && 0 <= c < RowLen(g)
      ensures CyclicN(g, k, xAxis, yAxis)[r][c] == g[(r - Moved(k, yAxis)) % |g|][(c - Moved(k, xAxis)) % RowLen(g)]
    {
      CyclicNEntry(g, k, xAxis, yAxis, r, c);
    }
  }

  /** Entry (r, c) after `k` intended steps, followed back one step at a time. */
  lemma {:induction false} CyclicNEntry<T>(g: seq<seq<T>>, k: nat, xAxis: bool, yAxis: bool, r: nat, c: nat)
    requires IsRect(g, |g|, RowLen(g)) && r < |g| && c < RowLen(g)
    ensures CyclicN(g, k, xAxis, yAxis)[r][c] == g[(r - Moved(k, yAxis)) % |g|][(c - Moved(k, xAxis)) % RowLen(g)]
  {
    if k == 0 {
      CyclicNZero(g, xAxis, yAxis, r, c);
    } else {
      CyclicNEntry(g, k - 1, xAxis, yAxis, WrapBack(r, |g|, yAxis), WrapBack(c, RowLen(g), xAxis));
      EntryStep(g, k, xAxis, yAxis, r, c);
    }
  }

  lemma CyclicNZero<T>(g: seq<seq<T>>, xAxis: bool, yAxis: bool, r: nat, c: nat)
    requires IsRect(g, |g|, RowLen(g)) && r < |g| && c < RowLen(g)
    ensures CyclicN(g, 0, xAxis, yAxis)[r][c] == g[(r - Moved(0, yAxis)) % |g|][(c - Moved(0, xAxis)) % RowLen(g)]
  {
    ModSmall(r, |g|);
    ModSmall(c, RowLen(g));
  }

  /** One more step at entry (r, c), given where the entry it copies came from. */
  lemma EntryStep<T>(g: seq<seq<T>>, k: nat, xAxis: bool, yAxis: bool, r: nat, c: nat)
    requires IsRect(g, |g|, RowLen(g)) && k >= 1 && r < |g| && c < RowLen(g)
    requires CyclicN(g, k - 1, xAxis, yAxis)[WrapBack(r, |g|, yAxis)][WrapBack(c, RowLen(g), xAxis)] ==
             g[(WrapBack(r, |g|, yAxis) - Moved(k - 1, yAxis)) % |g|][(WrapBack(c, RowLen(g), xAxis) - Moved(k - 1, xAxis)) % RowLen(g)]
    ensures CyclicN(g, k, xAxis, yAxis)[r][c] == g[(r - Moved(k, yAxis)) % |g|][(c - Moved(k, xAxis)) % RowLen(g)]
  {
    Shifted(r, |g|, k, yAxis);
    Shifted(c, RowLen(g), k, xAxis);
  }

  /** Wrapping back once more moves an axis one step further, or not at all when it is off. */
  lemma Shifted(i: nat, n: nat, k: nat, on: bool)
    requires 0 < n && i < n && k >= 1
    ensures (WrapBack(i, n, on) - Moved(k - 1, on)) % n == (i - Moved(k, on)) % n
  {
    if on {
      ModStep(i, n, k);
    }
  }

  /** Rolling an axis as many times as it is long gives the grid back. */
  lemma FullTurn<T>(g: seq<seq<T>>, xAxis: bool, yAxis: bool)
    requires IsRect(g, |g|, |g|)
    ensures CyclicN(g, |g|, xAxis, yAxis) == g
  {
    var n := |g|;
    assert n > 0 ==> RowLen(g) == n;
    var out := CyclicN(g, n, xAxis, yAxis);
    forall r | 0 <= r < n ensures out[r] == g[r] {
      forall c | 0 <= c < n ensures out[r][c] == g[r][c] {
        FullTurnEntry(g, xAxis, yAxis, r, c);
      }
    }
  }

  lemma FullTurnEntry<T>(g: seq<seq<T>>, xAxis: bool, yAxis: bool, r: nat, c: nat)
    requires IsRect(g, |g|, |g|) && r < |g| && c < |g|
    ensures CyclicN(g, |g|, xAxis, yAxis)[r][c] == g[r][c]
  {
    var n := |g|;
    CyclicNEntry(g, n, xAxis, yAxis, r, c);
    ModShift(r - n, n);
    ModShift(c - n, n);
    ModSmall(r, n);
    ModSmall(c, n);
  }

  /** On a square grid the source's roll is the intended one. */
  lemma {:induction false} RollIsCyclicOnSquare<T>(g: seq<seq<T>>, k: nat, xAxis: bool, yAxis: bool)
    requires IsRect(g, |g|, |g|)
    ensures RollSafe(g, xAxis, yAxis)
    ensures RollN(g, k, xAxis, yAxis) == CyclicN(g, k, xAxis, yAxis)
  {
    if k > 0 {
      RollIsCyclicOnSquare(g, k - 1, xAxis, yAxis);
    }
  }

  /** `all_possible_shifts`, as written: for each axis choice (x, y, both)
      and each `shift_count < max(W, H)`, it rolls a copy of the input
      `shift_count + 1` times, but every call rolls by `max(W, H)` steps.
      The roll panics unless the grid is square, and on a square grid a
      roll by its side is a full turn, so every grid produced equals the
      input. */
  method AllPossibleShifts<T>(input: seq<seq<T>>) returns (sets: seq<seq<seq<T>>>)
    requires input != [] && input[0] != [] ==> IsRect(input, |input|, |input|)
    ensures input == [] || input[0] == [] ==> sets == []
    ensures input != [] && input[0] != [] ==> |sets| == 3 * |input|
    ensures forall i :: 0 <= i < |sets| ==> sets[i] == input
  {
    if input == [] || input[0] == [] {
      return [];
    }
    sets := [];
    var size := DimensionsOf(input);
    var shifts := if size.x < size.y then size.y else size.x;
    assert shifts == |input|;
    var axes := [(true, false), (false, true), (true, true)];
    var a := 0;
    while a < 3
      invariant 0 <= a <= 3
      invariant |sets| == a * shifts
      invariant forall i :: 0 <= i < |sets| ==> sets[i] == input
    {
      var (xAxis, yAxis) := axes[a];
      var shiftCount := 0;
      while shiftCount < shifts
        invariant 0 <= shiftCount <= shifts
        invariant |sets| == a * shifts + shiftCount
        invariant forall i :: 0 <= i < |sets| ==> sets[i] == input
      {
        var newSet := input;
        var k := 0;
        while k < shiftCount + 1
          invariant newSet == input
        {
          RollIsCyclicOnSquare(newSet, shifts, xAxis, yAxis);
          FullTurn(newSet, xAxis, yAxis);
          newSet := Roll(newSet, shifts, xAxis, yAxis);
          k := k + 1;
        }
        sets := sets + [newSet];
        shiftCount := shiftCount + 1;
      }
      a := a + 1;
    }
  }

  /** What `all_possible_shifts` evidently means to return: for each axis
      choice, the grid rolled by 1, 2, ..., max(W, H) single steps. */
  function AllShifts<T>(input: seq<seq<T>>): (sets: seq<seq<seq<T>>>)
    requires IsRect(input, |input|, |input|)
    ensures |sets| == 3 * |input|
  {
    AxisShifts(input, true, false) + AxisShifts(input, false, true) + AxisShifts(input, true, true)
  }

  /** One axis choice's block of `AllShifts`: the grid rolled by 1, 2, ..., n steps. */
  function AxisShifts<T>(input: seq<seq<T>>, xAxis: bool, yAxis: bool): (block: seq<seq<seq<T>>>)
    requires IsRect(input, |input|, |input|)
    ensures |block| == |input|
  {
    seq(|input|, s requires 0 <= s < |input| => CyclicN(input, s + 1, xAxis, yAxis))
  }

  /** Entry `a * n + shift_count` of `AllShifts` is the input rolled
      `shift_count + 1` times along axis choice `a` (0: x, 1: y, 2: both);
      `CyclicNEntries` says where each of its entries comes from. */
  lemma AllShiftsAt<T>(input: seq<seq<T>>, a: nat, shiftCount: nat)
    requires IsRect(input, |input|, |input|)
    requires a < 3 && shiftCount < |input|
    ensures Flat(a, shiftCount, |input|) < |AllShifts(input)|
    ensures AllShifts(input)[Flat(a, shiftCount, |input|)] == CyclicN(input, shiftCount + 1, a != 1, a != 0)
  {
    var n := |input|;
    var xs, ys, both := AxisShifts(input, true, false), AxisShifts(input, false, true), AxisShifts(input, true, true);
    BlockEntry(xs, ys, both, a, shiftCount);
    AxisShiftsAt(input, a != 1, a != 0, shiftCount);
  }

  lemma AxisShiftsAt<T>(input: seq<seq<T>>, xAxis: bool, yAxis: bool, s: nat)
    requires IsRect(input, |input|, |input|) && s < |input|
    ensures AxisShifts(input, xAxis, yAxis)[s] == CyclicN(input, s + 1, xAxis, yAxis)
  {
  }

  /** Entry `s` of block `a` of three blocks of equal length laid end to end. */
  lemma BlockEntry<U>(xs: seq<U>, ys: seq<U>, both: seq<U>, a: nat, s: nat)
    requires |xs| == |ys| == |both| && a < 3 && s < |xs|
    ensures Flat(a, s, |xs|) < |xs + ys + both|
    ensures (xs + ys + both)[Flat(a, s, |xs|)] == (if a == 0 then xs[s] else if a == 1 then ys[s] else both[s])
  {
    var n := |xs|;
    assert Mul(1, n) == n;
    assert Mul(2, n) == Mul(1, n) + n;
  }
}
