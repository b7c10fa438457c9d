/** The grid of chunks both `Wave` engines search over (wavefc/src/lib.rs and
    wfc/src/lib.rs share this code): `Element`s with their remaining
    candidate patterns, the `fill` layout, the queries
    `contradiction_occurred` and `completely_collapsed`, and the choice
    `collapse_once` makes.  Candidate lists hold `Pattern` values where the
    source shares them through `Arc`/`Rc`; the floating-point entropy is a
    score function supplied by the caller, and the random draws are
    nondeterministic choices. */
module Engine {
  import opened Geometry
  import opened Arith
  import opened Catalog

  /** The outcome of an operation that can fail with a message (`Result<T, String>`). */
  datatype Result<T> = Ok(value: T) | Err(message: string)

  /** Messages both engines return from `fill` and `collapse_all`. */
  const NotFilled := "The superpositions are empty or were not filled properly"
  const TooManyContradictions := "The max number of contradictions has been reached"
  const WidthNotFactor := "The output width must be a factor of the chunk size"
  const HeightNotFactor := "The output height must be a factor of the chunk size"
  /** Not in the source: `collapse_all` here stops when its step budget is spent. */
  const OutOfSteps := "The step budget ran out"

  /** A chunk of the output: its remaining candidates and its chunk position. */
  datatype Element = Element(values: seq<Pattern>, position: Vec2)

  /** `is_collapsed`: exactly one candidate is left. */
  predicate IsCollapsed(e: Element) {
    |e.values| == 1
  }

  /** `contradiction_occurred`: some element has no candidate left. */
  predicate ContradictionOccurred(elements: seq<Element>) {
    exists i :: 0 <= i < |elements| && elements[i].values == []
  }

  /** `completely_collapsed`: every element has exactly one candidate. */
  predicate CompletelyCollapsed(elements: seq<Element>) {
    forall i :: 0 <= i < |elements| ==> IsCollapsed(elements[i])
  }

  /** `true_size`: the output size in cells. */
  function TrueSize(fill: Vec2, chunk: Vec2): Vec2 {
    Vec2(fill.x * chunk.x, fill.y * chunk.y)
  }

  /** The layout `fill` builds: `fill.x` columns of `fill.y` chunks, listed
      column by column, so the element of chunk (x, y) is element
      `Flat(x, y, fill.y)`, that is `x * fill.y + y`. */
  ghost predicate Layout(elements: seq<Element>, fill: Vec2) {
    |elements| == Mul(fill.x, fill.y) &&
    forall i :: 0 <= i < |elements| ==>
      elements[i].position.x < fill.x && elements[i].position.y < fill.y &&
      i == Flat(elements[i].position.x, elements[i].position.y, fill.y)
  }

  /** In the layout, the chunk at `p` is element `Flat(p.x, p.y, fill.y)`,
      and no other element has position `p`. */
  lemma LayoutIndex(elements: seq<Element>, fill: Vec2, p: Vec2)
    requires Layout(elements, fill) && p.x < fill.x && p.y < fill.y
    ensures Flat(p.x, p.y, fill.y) < |elements|
    ensures elements[Flat(p.x, p.y, fill.y)].position == p
    ensures forall i :: 0 <= i < |elements| && elements[i].position == p ==> i == Flat(p.x, p.y, fill.y)
  {
    FlatBelow(p.x, p.y, fill.x, fill.y);
    var e := elements[Flat(p.x, p.y, fill.y)].position;
    FlatInjective(e.x, e.y, p.x, p.y, fill.y);
  }

  /** The element at an in-grid position `p`, and it is the only one there. */
  lemma LayoutFind(elements: seq<Element>, fill: Vec2, p: Vec2) returns (j: nat)
    requires Layout(elements, fill) && p.x < fill.x && p.y < fill.y
    ensures j < |elements| && elements[j].position == p
    ensures forall i :: 0 <= i < |elements| && elements[i].position == p ==> i == j
  {
    LayoutIndex(elements, fill, p);
    j := Flat(p.x, p.y, fill.y);
  }

  /** Every chunk of the layout lies inside the `fill` grid. */
  lemma LayoutInside(elements: seq<Element>, fill: Vec2, i: nat)
    requires Layout(elements, fill) && i < |elements|
    ensures elements[i].position.x < fill.x && elements[i].position.y < fill.y
  {
  }

  /** The element loop of `fill`: for each chunk column `x`, for each row
      `y`, an element at (x, y) holding the whole catalog. */
  method FillElements(patterns: seq<Pattern>, fill: Vec2) returns (elements: seq<Element>)
    ensures Layout(elements, fill)
    ensures forall i :: 0 <= i < |elements| ==> elements[i].values == patterns
  {
    elements := [];
    for x := 0 to fill.x
      invariant |elements| == Mul(x, fill.y)
      invariant forall i :: 0 <= i < |elements| ==>
                  elements[i].values == patterns && elements[i].position.x < x && elements[i].position.y < fill.y &&
                  i == Flat(elements[i].position.x, elements[i].position.y, fill.y)
    {
      for y := 0 to fill.y
        invariant |elements| == Flat(x, y, fill.y)
        invariant forall i :: 0 <= i < |elements| ==>
                    elements[i].values == patterns && elements[i].position.x <= x && elements[i].position.y < fill.y &&
                    i == Flat(elements[i].position.x, elements[i].position.y, fill.y)
      {
        elements := elements + [Element(patterns, Vec2(x, y))];
      }
    }
  }

  /** `fill` on the output size `true_size` gives back the same chunk grid size. */
  lemma FillTrueSize(fill: Vec2, chunk: Vec2)
    requires chunk.x > 0 && chunk.y > 0
    ensures TrueSize(fill, chunk).x % chunk.x == 0 && TrueSize(fill, chunk).x / chunk.x == fill.x
    ensures TrueSize(fill, chunk).y % chunk.y == 0 && TrueSize(fill, chunk).y / chunk.y == fill.y
  {
    DivModUnique(fill.x, 0, chunk.x);
    DivModUnique(fill.y, 0, chunk.y);
  }

  /** A filled layout with both sizes positive has at least one element. */
  lemma FilledNonEmpty(elements: seq<Element>, fill: Vec2)
    requires Layout(elements, fill) && fill.x > 0 && fill.y > 0
    ensures elements != []
  {
    assert Mul(fill.x, fill.y) == Mul(fill.x - 1, fill.y) + fill.y;
  }

  // ----------------------------------------------------------------------
  // Selection in `collapse_once`

  /** The score `collapse_once` ranks elements by: 0 without candidates (as
      `entropy` returns early), otherwise the caller's entropy. */
  function Score(values: seq<Pattern>, entropy: seq<Pattern> -> real): real {
    if values == [] then 0.0 else entropy(values)
  }

  /** An element the selection loop can pick: not collapsed, positive score. */
  predicate Eligible(e: Element, entropy: seq<Pattern> -> real) {
    !IsCollapsed(e) && Score(e.values, entropy) > 0.0
  }

  predicate AnyEligible(elements: seq<Element>, entropy: seq<Pattern> -> real) {
    exists i :: 0 <= i < |elements| && Eligible(elements[i], entropy)
  }

  /** Element `i` is eligible and no eligible element scores higher. */
  predicate Best(elements: seq<Element>, entropy: seq<Pattern> -> real, i: nat) {
    i < |elements| && Eligible(elements[i], entropy) &&
    forall j :: 0 <= j < |elements| && Eligible(elements[j], entropy) ==>
      Score(elements[j].values, entropy) <= Score(elements[i].values, entropy)
  }

  /** The selection loop of `collapse_once`: the eligible elements of the
      greatest score, or `[0]` when no element is eligible. */
  method SelectElements(elements: seq<Element>, entropy: seq<Pattern> -> real) returns (selected: seq<nat>)
    requires elements != []
    ensures selected != []
    ensures !AnyEligible(elements, entropy) ==> selected == [0]
    ensures AnyEligible(elements, entropy) ==> forall i :: i in selected <==> Best(elements, entropy, i)
  {
    selected := [0];
    var greatest := 0.0;
    for i := 0 to |elements|
      invariant !AnyEligible(elements[..i], entropy) ==> selected == [0] && greatest == 0.0
      invariant AnyEligible(elements[..i], entropy) ==> selected != [] && greatest > 0.0
      invariant AnyEligible(elements[..i], entropy) ==>
                  forall j :: 0 <= j < i && Eligible(elements[j], entropy) ==> Score(elements[j].values, entropy) <= greatest
      invariant AnyEligible(elements[..i], entropy) ==>
                  forall j :: j in selected <==> 0 <= j < i && Eligible(elements[j], entropy) && Score(elements[j].values, entropy) == greatest
    {
      var element := elements[i];
      if !IsCollapsed(element) {
        var ent := Score(element.values, entropy);
        if ent != 0.0 {
          if ent > greatest {
            greatest := ent;
            selected := [i];
          } else if ent == greatest {
            selected := selected + [i];
          }
        }
      }
      assert forall j :: 0 <= j < i ==> elements[..i + 1][j] == elements[..i][j];
      assert elements[..i + 1][i] == elements[i];
    }
    assert elements[..|elements|] == elements;
    if AnyEligible(elements, entropy) {
      var top := selected[0];
      assert top in selected;
      forall i: nat | Best(elements, entropy, i) ensures i in selected {
        assert Score(elements[top].values, entropy) <= Score(elements[i].values, entropy);
      }
    }
  }

  /** Element `i` can be drawn from the selection: a best element, or
      element 0 when none is eligible. */
  predicate Selectable(elements: seq<Element>, entropy: seq<Pattern> -> real, i: nat) {
    if AnyEligible(elements, entropy) then Best(elements, entropy, i) else i == 0
  }

  /** What `collapse_once` commits to before propagating: an element drawn
      from the selection, and one of its candidates (of positive count
      unless weights are off), which becomes its only candidate.  The draw
      panics on an element without candidates and, with weights, on one
      whose counts are all zero. */
  method Commit(elements: seq<Element>, entropy: seq<Pattern> -> real, noWeights: bool)
    returns (next: seq<Element>, center: nat, choice: Pattern)
    requires elements != []
    requires AnyEligible(elements, entropy) || elements[0].values != []
    requires !noWeights ==> forall i :: 0 <= i < |elements| && Selectable(elements, entropy, i) ==>
                              exists v :: v in elements[i].values && v.count > 0
    ensures center < |elements|
    ensures AnyEligible(elements, entropy) ==> Best(elements, entropy, center)
    ensures !AnyEligible(elements, entropy) ==> center == 0
    ensures choice in elements[center].values && (!noWeights ==> choice.count > 0)
    ensures next == elements[center := elements[center].(values := [choice])]
  {
    var selected := SelectElements(elements, entropy);
    assert selected[0] in selected;
    center :| center in selected;
    var values := elements[center].values;
    assert values != [] by {
      if AnyEligible(elements, entropy) {
        assert Eligible(elements[center], entropy);
      }
    }
    assert Selectable(elements, entropy, center);
    assert values[0] in values;
    choice :| choice in values && (noWeights || choice.count > 0);
    next := elements[center := elements[center].(values := [choice])];
  }
}
