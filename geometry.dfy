/** Grid coordinates and the small neighbourhood helpers shared by every
    engine generation: `dimensions_of`, `noneg_neighbours` and
    `orthog_direction`.  Coordinates are `usize` in the source; they are
    `nat` here, and the signed intermediate arithmetic is replaced by the
    explicit comparisons it performs. */
module Geometry {

  /** A `Vector2<usize>`: a position in a grid or a size. */
  datatype Vec2 = Vec2(x: nat, y: nat)

  /** Optional values (`Option<T>`). */
  datatype Option<T> = None | Some(value: T)

  /** Every column of `g` has length `h`, and there are `w` columns. */
  ghost predicate IsRect<T>(g: seq<seq<T>>, w: nat, h: nat) {
    |g| == w && forall i :: 0 <= i < |g| ==> |g[i]| == h
  }

  /** `dimensions_of`: the number of columns and the length of the first one. */
  function DimensionsOf<T>(input: seq<seq<T>>): (d: Vec2)
    ensures d.x == |input|
    ensures input == [] <==> d.x == 0
    ensures input == [] ==> d.y == 0
  {
    Vec2(|input|, if input == [] then 0 else |input[0]|)
  }

  /** A non-empty rectangular grid reports its own width and height. */
  lemma DimensionsOfRect<T>(g: seq<seq<T>>, w: nat, h: nat)
    requires IsRect(g, w, h) && w > 0
    ensures DimensionsOf(g) == Vec2(w, h)
  {
    assert |g[0]| == h;
  }

  function AbsDiff(a: nat, b: nat): nat {
    if a < b then b - a else a - b
  }

  /** Manhattan distance between two positions. */
  function Dist(p: Vec2, q: Vec2): nat {
    AbsDiff(p.x, q.x) + AbsDiff(p.y, q.y)
  }

  /** The neighbour of `p` that a rule with direction `d` refers to, as
      `orthog_direction` names it: 0 is y + 1, 1 is x + 1, 2 is y - 1 and
      3 is x - 1.  `None` when that neighbour has a negative coordinate. */
  function Offset(p: Vec2, d: nat): Option<Vec2>
    requires d < 4
  {
    if d == 0 then Some(Vec2(p.x, p.y + 1))
    else if d == 1 then Some(Vec2(p.x + 1, p.y))
    else if d == 2 then (if p.y > 0 then Some(Vec2(p.x, p.y - 1)) else None)
    else (if p.x > 0 then Some(Vec2(p.x - 1, p.y)) else None)
  }

  /** `noneg_neighbours`: (x, y-1), (x+1, y), (x, y+1), (x-1, y) in this
      order, leaving out the ones with a negative coordinate. */
  function NonegNeighbours(p: Vec2): (r: seq<Vec2>)
    ensures forall q :: q in r <==> Dist(p, q) == 1
    ensures forall i, j :: 0 <= i < j < |r| ==> r[i] != r[j]
    ensures |r| == 4 - (if p.x == 0 then 1 else 0) - (if p.y == 0 then 1 else 0)
  {
    (if p.y > 0 then [Vec2(p.x, p.y - 1)] else []) +
    [Vec2(p.x + 1, p.y), Vec2(p.x, p.y + 1)] +
    (if p.x > 0 then [Vec2(p.x - 1, p.y)] else [])
  }

  /** The origin yields only its right and lower neighbours. */
  lemma NonegNeighboursOfOrigin()
    ensures NonegNeighbours(Vec2(0, 0)) == [Vec2(1, 0), Vec2(0, 1)]
  {
  }

  /** `orthog_direction`: the direction from `origin` to `point`; the x
      difference takes precedence, equal points give 0. */
  function OrthogDirection(origin: Vec2, point: Vec2): (d: nat)
    ensures d < 4
    ensures d == 3 <==> point.x < origin.x
    ensures d == 1 <==> point.x > origin.x
    ensures d == 2 <==> point.x == origin.x && point.y < origin.y
    ensures d == 0 <==> point.x == origin.x && point.y >= origin.y
  {
    if point.x < origin.x then 3
    else if point.x > origin.x then 1
    else if point.y < origin.y then 2
    else 0
  }

  /** `OrthogDirection` and `Offset` are inverse on neighbours: the direction
      towards a neighbour leads back to it, and the neighbour a direction
      names is seen in that direction. */
  lemma {:induction false} DirectionOffsetInverse(p: Vec2, q: Vec2, d: nat)
    requires d < 4
    ensures Dist(p, q) == 1 ==> Offset(p, OrthogDirection(p, q)) == Some(q)
    ensures Offset(p, d) == Some(q) ==> OrthogDirection(p, q) == d && Dist(p, q) == 1
  {
  }

  /** A neighbour of `q` that is one step closer to `c` is the one obtained
      by moving one coordinate of `q` towards `c`, so it lies in every box
      that holds both `c` and `q`. */
  lemma {:induction false} CloserNeighbourInBox(c: Vec2, q: Vec2, r: Vec2, w: nat, h: nat)
    requires c.x < w && c.y < h && q.x < w && q.y < h
    requires Dist(q, r) == 1 && Dist(c, r) < Dist(c, q)
    ensures r.x < w && r.y < h
  {
  }

  /** Every position away from `c` has a neighbour one step closer to `c`,
      inside any box that holds both. */
  lemma {:induction false} StepTowards(c: Vec2, q: Vec2, w: nat, h: nat) returns (r: Vec2)
    requires c.x < w && c.y < h && q.x < w && q.y < h
    requires Dist(c, q) >= 1
    ensures Dist(q, r) == 1 && Dist(c, r) + 1 == Dist(c, q)
    ensures r.x < w && r.y < h
  {
    if q.x < c.x {
      r := Vec2(q.x + 1, q.y);
    } else if q.x > c.x {
      r := Vec2(q.x - 1, q.y);
    } else if q.y < c.y {
      r := Vec2(q.x, q.y + 1);
    } else {
      r := Vec2(q.x, q.y - 1);
    }
  }
}
