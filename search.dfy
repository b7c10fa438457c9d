/** One step of the search, `collapse_once`, as both `Wave` engines run it
    (wavefc/src/lib.rs and wfc/src/lib.rs): an element drawn from the best
    scores is committed to one of its candidates, and `propagate` prunes
    outwards from it.  `Collapsed` is the grid that step leaves; the lemmas
    say what it keeps: the layout, the chunk shape, positive counts, and
    that no element ever gains a candidate. */
module Search {
  import opened Geometry
  import opened Catalog
  import opened Engine
  import Propagation
  import Seqs
  import Reps

  /** Every candidate of every element has a positive count. */
  ghost predicate CandidatesWeighted(elements: seq<Element>) {
    forall i, p :: 0 <= i < |elements| && p in elements[i].values ==> p.count > 0
  }

  /** `center` and `choice` are a draw `collapse_once` can make: a
      selectable element and one of its candidates, of positive count
      unless weights are off. */
  predicate Drawn(elements: seq<Element>, entropy: seq<Pattern> -> real, noWeights: bool, center: nat, choice: Pattern) {
    center < |elements| && Selectable(elements, entropy, center) &&
    choice in elements[center].values && (!noWeights ==> choice.count > 0)
  }

  /** The grid right after the commit: element `center` holds only `choice`. */
  function Picked(elements: seq<Element>, center: nat, choice: Pattern): seq<Element>
    requires center < |elements|
  {
    elements[center := elements[center].(values := [choice])]
  }

  /** The grid `collapse_once` leaves after committing `center` to `choice`:
      every element keeps its final candidates of the propagation that
      starts at `center`. */
  ghost function Collapsed(elements: seq<Element>, center: nat, choice: Pattern): seq<Element>
    requires center < |elements|
  {
    var picked := Picked(elements, center, choice);
    seq(|elements|, i requires 0 <= i < |elements| =>
      picked[i].(values := Propagation.Final(picked, picked[center].position, i)))
  }

  /** `collapse_once` on a non-empty grid: the draw, then propagation. */
  method CollapseStep(elements: seq<Element>, entropy: seq<Pattern> -> real, noWeights: bool, ghost fill: Vec2)
    returns (next: seq<Element>, center: nat, choice: Pattern)
    requires Layout(elements, fill) && elements != []
    requires AnyEligible(elements, entropy) || elements[0].values != []
    requires !noWeights ==> forall i :: 0 <= i < |elements| && Selectable(elements, entropy, i) ==>
                              exists v :: v in elements[i].values && v.count > 0
    ensures Drawn(elements, entropy, noWeights, center, choice)
    ensures next == Collapsed(elements, center, choice)
  {
    var picked;
    picked, center, choice := Commit(elements, entropy, noWeights);
    assert Layout(picked, fill) by {
      forall i | 0 <= i < |picked|
        ensures picked[i].position == elements[i].position
      {
      }
    }
    next := Propagation.Propagate(picked, center, fill);
  }

  /** With positive counts everywhere, every draw `collapse_once` can make
      has a candidate of positive weight. */
  lemma WeightedDraws(elements: seq<Element>, entropy: seq<Pattern> -> real)
    requires CandidatesWeighted(elements) && elements != []
    requires AnyEligible(elements, entropy) || elements[0].values != []
    ensures forall i :: 0 <= i < |elements| && Selectable(elements, entropy, i) ==>
              exists v :: v in elements[i].values && v.count > 0
  {
    forall i | 0 <= i < |elements| && Selectable(elements, entropy, i)
      ensures exists v :: v in elements[i].values && v.count > 0
    {
      var values := elements[i].values;
      if AnyEligible(elements, entropy) {
        assert Eligible(elements[i], entropy);
      }
      assert values[0] in values;
    }
  }

  /** The committed element ends with `choice` alone; every other element
      keeps a subsequence of its candidates; positions do not move. */
  lemma CollapsedShrinks(elements: seq<Element>, center: nat, choice: Pattern)
    requires center < |elements|
    ensures |Collapsed(elements, center, choice)| == |elements|
    ensures Collapsed(elements, center, choice)[center].values == [choice]
    ensures forall i :: 0 <= i < |elements| ==>
              Collapsed(elements, center, choice)[i].position == elements[i].position
    ensures forall i :: 0 <= i < |elements| && i != center ==>
              Seqs.IsSubseq(Collapsed(elements, center, choice)[i].values, elements[i].values)
  {
    var picked := Picked(elements, center, choice);
    var after := Collapsed(elements, center, choice);
    Propagation.FinalShrinks(picked, picked[center].position, center);
    forall i | 0 <= i < |elements| && i != center
      ensures Seqs.IsSubseq(after[i].values, elements[i].values)
    {
      Propagation.FinalShrinks(picked, picked[center].position, i);
    }
  }

  /** Every candidate left after the step was a candidate before it. */
  lemma CollapsedFrom(elements: seq<Element>, center: nat, choice: Pattern, i: nat, p: Pattern)
    requires center < |elements| && i < |elements|
    requires p in Collapsed(elements, center, choice)[i].values
    ensures i == center ==> p == choice
    ensures i != center ==> p in elements[i].values
  {
    CollapsedShrinks(elements, center, choice);
    if i != center {
      Seqs.SubseqMembers(Collapsed(elements, center, choice)[i].values, elements[i].values);
    }
  }

  /** A step keeps the layout, positive counts and chunk-sized contents,
      given a draw that `collapse_once` can make. */
  lemma CollapsedKeeps(elements: seq<Element>, entropy: seq<Pattern> -> real, noWeights: bool,
                       center: nat, choice: Pattern, fill: Vec2, chunk: Vec2)
    requires Drawn(elements, entropy, noWeights, center, choice)
    ensures Layout(elements, fill) ==> Layout(Collapsed(elements, center, choice), fill)
    ensures CandidatesWeighted(elements) ==> CandidatesWeighted(Collapsed(elements, center, choice))
    ensures Reps.Shaped(elements, chunk) ==> Reps.Shaped(Collapsed(elements, center, choice), chunk)
  {
    var after := Collapsed(elements, center, choice);
    CollapsedShrinks(elements, center, choice);
    forall i, p | 0 <= i < |after| && p in after[i].values
      ensures p in elements[i].values
    {
      CollapsedFrom(elements, center, choice, i, p);
    }
  }
}
