/** `propagate` (wavefc/src/lib.rs, identical in wfc/src/lib.rs): after a
    chunk is collapsed, candidates are pruned outwards from it ring by ring
    in Manhattan distance.  A candidate of a chunk at distance `k` survives
    when some neighbouring chunk at distance `k - 1`, with the candidates it
    kept, has a rule pointing at it with that candidate's contents.

    `Final` states that outcome as a recursive function of the chunks before
    propagation; `Propagate` is proved to produce it for every layout `fill`
    builds. */
module Propagation {
  import opened Geometry
  import opened Adjacencies
  import opened Catalog
  import opened Engine
  import Seqs

  /** A reference: a pruned chunk's position and, per candidate it kept,
      that candidate's rules. */
  datatype Reference = Reference(position: Vec2, ruleSets: seq<seq<Rule>>)

  function RuleSets(values: seq<Pattern>): (r: seq<seq<Rule>>)
    ensures |r| == |values|
    ensures forall k :: 0 <= k < |values| ==> r[k] == values[k].rules
  {
    seq(|values|, k requires 0 <= k < |values| => values[k].rules)
  }

  /** One reference vouches for `contents` at `position`: it is a
      neighbour, and one of its rule lists has the rule pointing from it to
      `position` with those contents. */
  predicate Supports(reference: Reference, position: Vec2, contents: Grid) {
    reference.position in NonegNeighbours(position) &&
    exists rules :: rules in reference.ruleSets && Rule(OrthogDirection(reference.position, position), contents) in rules
  }

  /** The `valid` flag of the pruning loop. */
  predicate Valid(references: seq<Reference>, position: Vec2, contents: Grid) {
    exists m :: 0 <= m < |references| && Supports(references[m], position, contents)
  }

  function KeepValid(references: seq<Reference>, position: Vec2): Pattern -> bool {
    (v: Pattern) => Valid(references, position, v.contents)
  }

  // ----------------------------------------------------------------------
  // The specification

  /** The candidates chunk `i` keeps when propagation starts at `cpos`. */
  ghost function Final(orig: seq<Element>, cpos: Vec2, i: nat): seq<Pattern>
    requires i < |orig|
    decreases Dist(cpos, orig[i].position), 2, 0
  {
    if orig[i].position == cpos then orig[i].values
    else FilterSupported(orig, cpos, i, orig[i].values)
  }

  /** The members of `values` whose contents are supported at chunk `i`, in order. */
  ghost function FilterSupported(orig: seq<Element>, cpos: Vec2, i: nat, values: seq<Pattern>): seq<Pattern>
    requires i < |orig|
    decreases Dist(cpos, orig[i].position), 1, |values|
  {
    if values == [] then []
    else FilterSupported(orig, cpos, i, values[..|values| - 1]) +
         (if Supported(orig, cpos, i, values[|values| - 1].contents) then [values[|values| - 1]] else [])
  }

  /** Some neighbour of chunk `i` one step closer to `cpos` kept a candidate
      whose rules allow `contents` at chunk `i`. */
  ghost predicate Supported(orig: seq<Element>, cpos: Vec2, i: nat, contents: Grid)
    requires i < |orig|
    decreases Dist(cpos, orig[i].position), 0, 0
  {
    exists j :: 0 <= j < |orig| && Dist(cpos, orig[j].position) + 1 == Dist(cpos, orig[i].position) &&
      orig[j].position in NonegNeighbours(orig[i].position) &&
      exists u :: u in Final(orig, cpos, j) && Rule(OrthogDirection(orig[j].position, orig[i].position), contents) in u.rules
  }

  lemma {:induction false} FilterSupportedMembers(orig: seq<Element>, cpos: Vec2, i: nat, values: seq<Pattern>)
    requires i < |orig|
    ensures Seqs.IsSubseq(FilterSupported(orig, cpos, i, values), values)
    ensures forall v :: v in FilterSupported(orig, cpos, i, values) <==> v in values && Supported(orig, cpos, i, v.contents)
  {
    if values != [] {
      var vs := values[..|values| - 1];
      var last := values[|values| - 1];
      FilterSupportedMembers(orig, cpos, i, vs);
      var f := FilterSupported(orig, cpos, i, values);
      assert values == vs + [last];
      if Supported(orig, cpos, i, last.contents) {
        assert f[..|f| - 1] == FilterSupported(orig, cpos, i, vs);
      } else {
        assert f == FilterSupported(orig, cpos, i, vs);
      }
    }
  }

  lemma {:induction false} FilterSupportedTwice(orig: seq<Element>, cpos: Vec2, i: nat, values: seq<Pattern>)
    requires i < |orig|
    ensures FilterSupported(orig, cpos, i, FilterSupported(orig, cpos, i, values)) == FilterSupported(orig, cpos, i, values)
  {
    if values != [] {
      var vs := values[..|values| - 1];
      FilterSupportedTwice(orig, cpos, i, vs);
      var f := FilterSupported(orig, cpos, i, values);
      if Supported(orig, cpos, i, values[|values| - 1].contents) {
        assert f[..|f| - 1] == FilterSupported(orig, cpos, i, vs);
      } else {
        assert f == FilterSupported(orig, cpos, i, vs);
      }
    }
  }

  /** Propagation only removes candidates, keeping the order of the rest;
      the start chunk keeps all of its own. */
  lemma FinalShrinks(orig: seq<Element>, cpos: Vec2, i: nat)
    requires i < |orig|
    ensures Seqs.IsSubseq(Final(orig, cpos, i), orig[i].values)
    ensures orig[i].position == cpos ==> Final(orig, cpos, i) == orig[i].values
  {
    if orig[i].position == cpos {
      Seqs.SubseqRefl(orig[i].values);
    } else {
      FilterSupportedMembers(orig, cpos, i, orig[i].values);
    }
  }

  /** A candidate away from the start survives exactly when it is supported
      by a neighbour one step closer. */
  lemma FinalMembers(orig: seq<Element>, cpos: Vec2, i: nat, v: Pattern)
    requires i < |orig| && orig[i].position != cpos
    ensures v in Final(orig, cpos, i) <==> v in orig[i].values && Supported(orig, cpos, i, v.contents)
  {
    FilterSupportedMembers(orig, cpos, i, orig[i].values);
  }

  /** The neighbours of the collapsed chunk keep only candidates the chosen
      pattern's rules name, in the direction they lie in. */
  lemma FinalNextToChoice(orig: seq<Element>, center: nat, choice: Pattern, i: nat, v: Pattern)
    requires center < |orig| && i < |orig|
    requires orig[center].values == [choice]
    requires forall j :: 0 <= j < |orig| && orig[j].position == orig[center].position ==> j == center
    requires Dist(orig[center].position, orig[i].position) == 1
    requires v in Final(orig, orig[center].position, i)
    ensures Rule(OrthogDirection(orig[center].position, orig[i].position), v.contents) in choice.rules
  {
    FinalMembers(orig, orig[center].position, i, v);
    SupportedByCenter(orig, center, choice, i, v.contents);
  }

  lemma SupportedByCenter(orig: seq<Element>, center: nat, choice: Pattern, i: nat, contents: Grid)
    requires center < |orig| && i < |orig|
    requires orig[center].values == [choice]
    requires forall j :: 0 <= j < |orig| && orig[j].position == orig[center].position ==> j == center
    requires Dist(orig[center].position, orig[i].position) == 1
    requires Supported(orig, orig[center].position, i, contents)
    ensures Rule(OrthogDirection(orig[center].position, orig[i].position), contents) in choice.rules
  {
    var cpos := orig[center].position;
    var j :| 0 <= j < |orig| && Dist(cpos, orig[j].position) + 1 == Dist(cpos, orig[i].position) &&
      orig[j].position in NonegNeighbours(orig[i].position) &&
      exists u :: u in Final(orig, cpos, j) && Rule(OrthogDirection(orig[j].position, orig[i].position), contents) in u.rules;
    assert orig[j].position == cpos by {
      assert Dist(cpos, orig[j].position) == 0;
    }
    assert j == center;
  }

  // ----------------------------------------------------------------------
  // The loop's state after `k` rings

  /** Chunks closer than `k` hold their final candidates, the rest their
      original ones. */
  ghost predicate Processed(orig: seq<Element>, cpos: Vec2, k: nat, elems: seq<Element>) {
    |elems| == |orig| &&
    forall i :: 0 <= i < |orig| ==>
      elems[i].position == orig[i].position &&
      elems[i].values == (if Dist(cpos, orig[i].position) < k then Final(orig, cpos, i) else orig[i].values)
  }

  /** The references are exactly the chunks at distance `k - 1`, with their
      final candidates; `sources[m]` is the chunk reference `m` was taken from. */
  ghost predicate RefsAt(orig: seq<Element>, cpos: Vec2, k: nat, refs: seq<Reference>, sources: seq<nat>) {
    |sources| == |refs| &&
    (forall m :: 0 <= m < |refs| ==>
      sources[m] < |orig| && Dist(cpos, orig[sources[m]].position) + 1 == k &&
      refs[m] == Reference(orig[sources[m]].position, RuleSets(Final(orig, cpos, sources[m])))) &&
    (forall j: nat :: j < |orig| && Dist(cpos, orig[j].position) + 1 == k ==> j in sources)
  }

  /** The locations to visit lie at distance `k` and include every chunk there. */
  ghost predicate LocsAt(orig: seq<Element>, cpos: Vec2, k: nat, locs: seq<Vec2>) {
    (forall p :: p in locs ==> Dist(cpos, p) == k) &&
    (forall j :: 0 <= j < |orig| && Dist(cpos, orig[j].position) == k ==> orig[j].position in locs)
  }

  predicate Banned(banned: seq<seq<Vec2>>, p: Vec2) {
    exists s :: s in banned && p in s
  }

  /** At most two banned lists, all closer than `k`, the last holding every
      chunk at distance `k - 1`. */
  ghost predicate BannedBefore(orig: seq<Element>, cpos: Vec2, k: nat, banned: seq<seq<Vec2>>) {
    1 <= |banned| <= 2 &&
    (forall p :: Banned(banned, p) ==> Dist(cpos, p) < k) &&
    (forall j :: 0 <= j < |orig| && Dist(cpos, orig[j].position) + 1 == k ==> orig[j].position in banned[|banned| - 1])
  }

  // ----------------------------------------------------------------------
  // The loop's parts

  /** The chunk indexes whose position is one of `locs`. */
  method FindIndexes(elems: seq<Element>, locs: seq<Vec2>) returns (indexes: seq<nat>)
    ensures forall t :: 0 <= t < |indexes| ==> indexes[t] < |elems|
    ensures forall i :: 0 <= i < |elems| ==> (i in indexes <==> elems[i].position in locs)
  {
    indexes := [];
    for l := 0 to |locs|
      invariant forall t :: 0 <= t < |indexes| ==> indexes[t] < |elems|
      invariant forall i :: 0 <= i < |elems| ==> (i in indexes <==> elems[i].position in locs[..l])
    {
      for i := 0 to |elems|
        invariant forall t :: 0 <= t < |indexes| ==> indexes[t] < |elems|
        invariant forall i' :: 0 <= i' < |elems| ==>
                    (i' in indexes <==> elems[i'].position in locs[..l] || (i' < i && elems[i'].position == locs[l]))
      {
        if elems[i].position == locs[l] {
          indexes := indexes + [i];
        }
      }
      assert locs[..l + 1] == locs[..l] + [locs[l]];
    }
    assert locs[..|locs|] == locs;
  }

  /** The search for a `valid` reason to keep contents `contents` at
      `position`, stopping at the first matching rule. */
  method CheckValid(references: seq<Reference>, position: Vec2, contents: Grid) returns (valid: bool)
    ensures valid == Valid(references, position, contents)
  {
    valid := false;
    var neighbours := NonegNeighbours(position);
    var m := 0;
    while m < |references| && !valid
      invariant 0 <= m <= |references|
      invariant valid == exists m' :: 0 <= m' < m && Supports(references[m'], position, contents)
    {
      var reference := references[m];
      if reference.position in neighbours {
        var wanted := Rule(OrthogDirection(reference.position, position), contents);
        var s := 0;
        while s < |reference.ruleSets| && !valid
          invariant 0 <= s <= |reference.ruleSets|
          invariant valid == exists s' :: 0 <= s' < s && wanted in reference.ruleSets[s']
        {
          var rules := reference.ruleSets[s];
          var r := 0;
          while r < |rules| && !valid
            invariant 0 <= r <= |rules|
            invariant valid == exists r' :: 0 <= r' < r && rules[r'] == wanted
          {
            if rules[r].content == contents && rules[r].direction == wanted.direction {
              valid := true;
            }
            r := r + 1;
          }
          s := s + 1;
        }
        if valid {
          assert Supports(reference, position, contents);
        } else {
          assert !Supports(reference, position, contents);
        }
      }
      m := m + 1;
    }
  }

  /** The pruning of one chunk's candidates: those without a valid reason
      are collected by index and removed with `remove_indexes`. */
  method PruneValues(values: seq<Pattern>, position: Vec2, references: seq<Reference>) returns (kept: seq<Pattern>)
    ensures kept == Seqs.Filter(values, KeepValid(references, position))
  {
    var toRemove: seq<nat> := [];
    for t := 0 to |values|
      invariant Seqs.StrictlyIncreasing(toRemove)
      invariant forall m :: 0 <= m < |toRemove| ==> toRemove[m] < t
      invariant forall k: nat :: k in toRemove <==> k < t && !KeepValid(references, position)(values[k])
    {
      var valid := CheckValid(references, position, values[t].contents);
      if !valid {
        toRemove := toRemove + [t];
      }
    }
    kept := Seqs.RemoveIndexes(values, toRemove);
    Seqs.KeepIsFilter(values, toRemove, KeepValid(references, position));
  }

  lemma ValidToSupported(orig: seq<Element>, cpos: Vec2, k: nat, refs: seq<Reference>, sources: seq<nat>, i: nat, c: Grid)
    requires RefsAt(orig, cpos, k, refs, sources) && i < |orig| && Dist(cpos, orig[i].position) == k
    requires Valid(refs, orig[i].position, c)
    ensures Supported(orig, cpos, i, c)
  {
    var pos := orig[i].position;
    var m :| 0 <= m < |refs| && Supports(refs[m], pos, c);
    var j := sources[m];
    var f := Final(orig, cpos, j);
    var rules :| rules in RuleSets(f) && Rule(OrthogDirection(orig[j].position, pos), c) in rules;
    var t :| 0 <= t < |f| && RuleSets(f)[t] == rules;
    assert f[t] in f;
  }

  lemma SupportedToValid(orig: seq<Element>, cpos: Vec2, k: nat, refs: seq<Reference>, sources: seq<nat>, i: nat, c: Grid)
    requires RefsAt(orig, cpos, k, refs, sources) && i < |orig| && Dist(cpos, orig[i].position) == k
    requires Supported(orig, cpos, i, c)
    ensures Valid(refs, orig[i].position, c)
  {
    var pos := orig[i].position;
    var j :| 0 <= j < |orig| && Dist(cpos, orig[j].position) + 1 == Dist(cpos, pos) &&
      orig[j].position in NonegNeighbours(pos) &&
      exists u :: u in Final(orig, cpos, j) && Rule(OrthogDirection(orig[j].position, pos), c) in u.rules;
    var u :| u in Final(orig, cpos, j) && Rule(OrthogDirection(orig[j].position, pos), c) in u.rules;
    var m :| 0 <= m < |sources| && sources[m] == j;
    ReferenceSupports(orig, cpos, k, refs, sources, m, pos, c, u);
  }

  /** The reference built from a neighbour's final candidates vouches for
      whatever one of those candidates' rules points at. */
  lemma ReferenceSupports(orig: seq<Element>, cpos: Vec2, k: nat, refs: seq<Reference>, sources: seq<nat>,
                          m: nat, pos: Vec2, c: Grid, u: Pattern)
    requires RefsAt(orig, cpos, k, refs, sources) && m < |refs|
    requires orig[sources[m]].position in NonegNeighbours(pos)
    requires u in Final(orig, cpos, sources[m])
    requires Rule(OrthogDirection(orig[sources[m]].position, pos), c) in u.rules
    ensures Supports(refs[m], pos, c)
  {
    var f := Final(orig, cpos, sources[m]);
    var t :| 0 <= t < |f| && f[t] == u;
    assert RuleSets(f)[t] in refs[m].ruleSets;
  }

  /** With the references of ring `k - 1`, pruning by `valid` is filtering
      by support. */
  lemma {:induction false} ValidFilter(orig: seq<Element>, cpos: Vec2, k: nat, refs: seq<Reference>, sources: seq<nat>, i: nat, values: seq<Pattern>)
    requires RefsAt(orig, cpos, k, refs, sources) && i < |orig| && Dist(cpos, orig[i].position) == k
    ensures Seqs.Filter(values, KeepValid(refs, orig[i].position)) == FilterSupported(orig, cpos, i, values)
  {
    if values != [] {
      var last := values[|values| - 1];
      ValidFilter(orig, cpos, k, refs, sources, i, values[..|values| - 1]);
      if Valid(refs, orig[i].position, last.contents) {
        ValidToSupported(orig, cpos, k, refs, sources, i, last.contents);
      }
      if Supported(orig, cpos, i, last.contents) {
        SupportedToValid(orig, cpos, k, refs, sources, i, last.contents);
      }
    }
  }

  /** Pruning a chunk of ring `k`, before or after an earlier pruning of it
      in the same ring, leaves its final candidates. */
  lemma PruneIsFinal(orig: seq<Element>, cpos: Vec2, k: nat, refs: seq<Reference>, sources: seq<nat>, i: nat, values: seq<Pattern>)
    requires RefsAt(orig, cpos, k, refs, sources) && k >= 1 && i < |orig| && Dist(cpos, orig[i].position) == k
    requires values == orig[i].values || values == Final(orig, cpos, i)
    ensures Seqs.Filter(values, KeepValid(refs, orig[i].position)) == Final(orig, cpos, i)
  {
    ValidFilter(orig, cpos, k, refs, sources, i, values);
    if values != orig[i].values {
      FilterSupportedTwice(orig, cpos, i, orig[i].values);
    }
  }

  /** The pruning of chunk `i` of ring `k`, first or repeated. */
  method PruneElement(ghost orig: seq<Element>, ghost cpos: Vec2, ghost k: nat,
                      references: seq<Reference>, ghost sources: seq<nat>, ghost i: nat, element: Element)
    returns (kept: seq<Pattern>)
    requires RefsAt(orig, cpos, k, references, sources) && k >= 1 && i < |orig| && Dist(cpos, orig[i].position) == k
    requires element.position == orig[i].position
    requires element.values == orig[i].values || element.values == Final(orig, cpos, i)
    ensures kept == Final(orig, cpos, i)
  {
    PruneIsFinal(orig, cpos, k, references, sources, i, element.values);
    kept := PruneValues(element.values, element.position, references);
  }

  /** One ring: each listed chunk is pruned against `references`, and its
      new reference and its neighbours are collected. */
  method PruneRing(ghost orig: seq<Element>, ghost cpos: Vec2, ghost k: nat,
                   elems: seq<Element>, references: seq<Reference>, ghost sources: seq<nat>, indexes: seq<nat>)
    returns (next: seq<Element>, newReferences: seq<Reference>, newLocs: seq<seq<Vec2>>)
    requires RefsAt(orig, cpos, k, references, sources) && k >= 1 && |elems| == |orig|
    requires forall t :: 0 <= t < |indexes| ==>
               indexes[t] < |elems| && elems[indexes[t]] == orig[indexes[t]] && Dist(cpos, orig[indexes[t]].position) == k
    ensures |next| == |elems|
    ensures forall i :: 0 <= i < |elems| ==>
              next[i] == if i in indexes then elems[i].(values := Final(orig, cpos, i)) else elems[i]
    ensures |newReferences| == |indexes| && |newLocs| == |indexes|
    ensures forall t :: 0 <= t < |indexes| ==>
              newReferences[t] == Reference(elems[indexes[t]].position, RuleSets(Final(orig, cpos, indexes[t])))
    ensures forall t :: 0 <= t < |indexes| ==> newLocs[t] == NonegNeighbours(elems[indexes[t]].position)
  {
    next := elems;
    newReferences := [];
    newLocs := [];
    for t := 0 to |indexes|
      invariant PrunedAt(orig, cpos, elems, indexes[..t], next)
      invariant newReferences == RingRefs(orig, cpos, elems, indexes[..t])
      invariant newLocs == RingLocs(elems, indexes[..t])
    {
      var i := indexes[t];
      var element := next[i];
      PrunedNext(orig, cpos, elems, indexes[..t], next, i);
      var kept := PruneElement(orig, cpos, k, references, sources, i, element);
      RingNext(orig, cpos, elems, indexes, t);
      next := next[i := element.(values := kept)];
      newReferences := newReferences + [Reference(element.position, RuleSets(kept))];
      newLocs := newLocs + [NonegNeighbours(element.position)];
    }
    assert indexes[..|indexes|] == indexes;
  }

  /** The references a ring collects: each listed chunk's position with the
      rule sets of its final candidates. */
  ghost function RingRefs(orig: seq<Element>, cpos: Vec2, elems: seq<Element>, idx: seq<nat>): (r: seq<Reference>)
    requires |elems| == |orig| && forall t :: 0 <= t < |idx| ==> idx[t] < |elems|
    ensures |r| == |idx|
    ensures forall t :: 0 <= t < |idx| ==> r[t] == Reference(elems[idx[t]].position, RuleSets(Final(orig, cpos, idx[t])))
  {
    if idx == [] then []
    else
      var last := idx[|idx| - 1];
      RingRefs(orig, cpos, elems, idx[..|idx| - 1]) + [Reference(elems[last].position, RuleSets(Final(orig, cpos, last)))]
  }

  /** One more listed chunk adds its reference and its neighbours. */
  lemma RingNext(orig: seq<Element>, cpos: Vec2, elems: seq<Element>, idx: seq<nat>, t: nat)
    requires |elems| == |orig| && t < |idx| && forall t' :: 0 <= t' < |idx| ==> idx[t'] < |elems|
    ensures idx[..t + 1] == idx[..t] + [idx[t]]
    ensures RingRefs(orig, cpos, elems, idx[..t + 1]) ==
            RingRefs(orig, cpos, elems, idx[..t]) + [Reference(elems[idx[t]].position, RuleSets(Final(orig, cpos, idx[t])))]
    ensures RingLocs(elems, idx[..t + 1]) == RingLocs(elems, idx[..t]) + [NonegNeighbours(elems[idx[t]].position)]
  {
    Seqs.TakeNext(idx, t);
  }

  /** The neighbour lists a ring collects, one per listed chunk. */
  function RingLocs(elems: seq<Element>, idx: seq<nat>): (r: seq<seq<Vec2>>)
    requires forall t :: 0 <= t < |idx| ==> idx[t] < |elems|
    ensures |r| == |idx|
    ensures forall t :: 0 <= t < |idx| ==> r[t] == NonegNeighbours(elems[idx[t]].position)
  {
    if idx == [] then []
    else RingLocs(elems, idx[..|idx| - 1]) + [NonegNeighbours(elems[idx[|idx| - 1]].position)]
  }

  /** `next` is `elems` with the chunks listed in `done` pruned to their final candidates. */
  ghost predicate PrunedAt(orig: seq<Element>, cpos: Vec2, elems: seq<Element>, done: seq<nat>, next: seq<Element>) {
    |next| == |elems| == |orig| &&
    forall i :: 0 <= i < |elems| ==>
      next[i] == if i in done then elems[i].(values := Final(orig, cpos, i)) else elems[i]
  }

  lemma PrunedNext(orig: seq<Element>, cpos: Vec2, elems: seq<Element>, done: seq<nat>, next: seq<Element>, i: nat)
    requires PrunedAt(orig, cpos, elems, done, next) && i < |elems|
    ensures next[i].position == elems[i].position
    ensures next[i].values == elems[i].values || next[i].values == Final(orig, cpos, i)
    ensures PrunedAt(orig, cpos, elems, done + [i], next[i := next[i].(values := Final(orig, cpos, i))])
  {
  }

  /** The next ring's locations: the collected neighbours that no banned
      list contains, adjacent repeats removed. */
  method NextLocs(newLocs: seq<seq<Vec2>>, banned: seq<seq<Vec2>>) returns (locs: seq<Vec2>)
    ensures forall p :: p in locs <==> (exists t :: 0 <= t < |newLocs| && p in newLocs[t]) && !Banned(banned, p)
  {
    var collected := [];
    for t := 0 to |newLocs|
      invariant forall p :: p in collected <==> (exists t' :: 0 <= t' < t && p in newLocs[t']) && !Banned(banned, p)
    {
      var set_ := newLocs[t];
      for l := 0 to |set_|
        invariant forall p :: p in collected <==>
                    ((exists t' :: 0 <= t' < t && p in newLocs[t']) || p in set_[..l]) && !Banned(banned, p)
      {
        var loc := set_[l];
        var isBanned := false;
        for b := 0 to |banned|
          invariant isBanned <==> exists b' :: 0 <= b' < b && loc in banned[b']
        {
          if loc in banned[b] {
            isBanned := true;
          }
        }
        if !isBanned {
          collected := collected + [loc];
        }
        assert set_[..l + 1] == set_[..l] + [loc];
      }
      assert set_[..|set_|] == set_;
    }
    locs := Seqs.Dedup(collected);
    Seqs.DedupMembers(collected);
  }

  // ----------------------------------------------------------------------
  // From one ring to the next

  /** A step to a neighbour changes the distance from `c` by exactly one. */
  lemma NeighbourDist(c: Vec2, q: Vec2, p: Vec2)
    requires Dist(q, p) == 1
    ensures Dist(c, p) == Dist(c, q) + 1 || Dist(c, p) + 1 == Dist(c, q)
  {
  }

  /** Below any chunk of the layout lies, at every smaller distance from a
      chunk inside the grid, some chunk. */
  lemma {:induction false} Descend(orig: seq<Element>, fill: Vec2, cpos: Vec2, i: nat, k: nat) returns (j: nat)
    requires Layout(orig, fill) && cpos.x < fill.x && cpos.y < fill.y
    requires i < |orig| && k <= Dist(cpos, orig[i].position)
    ensures j < |orig| && Dist(cpos, orig[j].position) == k
    decreases Dist(cpos, orig[i].position) - k
  {
    if Dist(cpos, orig[i].position) == k {
      j := i;
    } else {
      LayoutInside(orig, fill, i);
      var r := StepTowards(cpos, orig[i].position, fill.x, fill.y);
      var i' := LayoutFind(orig, fill, r);
      j := Descend(orig, fill, cpos, i', k);
    }
  }

  /** The state before the first ring: the start chunk is final, its
      reference is the only one, its neighbours are to be visited and it is
      banned. */
  lemma StartState(orig: seq<Element>, fill: Vec2, center: nat)
    requires Layout(orig, fill) && center < |orig|
    ensures Processed(orig, orig[center].position, 1, orig)
    ensures RefsAt(orig, orig[center].position, 1,
                   [Reference(orig[center].position, RuleSets(orig[center].values))], [center])
    ensures LocsAt(orig, orig[center].position, 1, NonegNeighbours(orig[center].position))
    ensures BannedBefore(orig, orig[center].position, 1, [[orig[center].position]])
  {
    var cpos := orig[center].position;
    LayoutInside(orig, fill, center);
    var c := LayoutFind(orig, fill, cpos);
    assert Final(orig, cpos, center) == orig[center].values;
  }

  /** When no chunk lies on the locations of ring `k`, every chunk is closer
      than `k`. */
  lemma AllWithin(orig: seq<Element>, fill: Vec2, cpos: Vec2, k: nat, locs: seq<Vec2>)
    requires Layout(orig, fill) && cpos.x < fill.x && cpos.y < fill.y
    requires LocsAt(orig, cpos, k, locs)
    requires forall i :: 0 <= i < |orig| ==> orig[i].position !in locs
    ensures forall i :: 0 <= i < |orig| ==> Dist(cpos, orig[i].position) < k
  {
    forall i | 0 <= i < |orig| ensures Dist(cpos, orig[i].position) < k {
      if Dist(cpos, orig[i].position) >= k {
        var j := Descend(orig, fill, cpos, i, k);
      }
    }
  }

  /** Ring `k + 1`'s locations lie at distance `k + 1`: a neighbour one
      step closer lies in the grid, so it was banned. */
  lemma NextLocsSound(orig: seq<Element>, fill: Vec2, cpos: Vec2, k: nat, locs: seq<Vec2>, indexes: seq<nat>,
                      oldBanned: seq<seq<Vec2>>, banned: seq<seq<Vec2>>, newLocs: seq<seq<Vec2>>, p: Vec2)
    requires Layout(orig, fill) && cpos.x < fill.x && cpos.y < fill.y && k >= 1
    requires LocsAt(orig, cpos, k, locs) && BannedBefore(orig, cpos, k, oldBanned)
    requires |newLocs| == |indexes|
    requires forall t :: 0 <= t < |indexes| ==>
               indexes[t] < |orig| && orig[indexes[t]].position in locs &&
               newLocs[t] == NonegNeighbours(orig[indexes[t]].position)
    requires forall q :: q in oldBanned[|oldBanned| - 1] ==> Banned(banned, q)
    requires (exists t :: 0 <= t < |newLocs| && p in newLocs[t]) && !Banned(banned, p)
    ensures Dist(cpos, p) == k + 1
  {
    var t :| 0 <= t < |newLocs| && p in newLocs[t];
    var q := orig[indexes[t]].position;
    NeighbourDist(cpos, q, p);
    if Dist(cpos, p) + 1 == Dist(cpos, q) {
      LayoutInside(orig, fill, indexes[t]);
      CloserNeighbourInBox(cpos, q, p, fill.x, fill.y);
      var j := LayoutFind(orig, fill, p);
    }
  }

  /** Every chunk at distance `k + 1` neighbours one at distance `k`, so it
      is among ring `k + 1`'s locations. */
  lemma NextLocsComplete(orig: seq<Element>, fill: Vec2, cpos: Vec2, k: nat, locs: seq<Vec2>, indexes: seq<nat>,
                         banned: seq<seq<Vec2>>, newLocs: seq<seq<Vec2>>, next: seq<Vec2>, j: nat)
    requires Layout(orig, fill) && cpos.x < fill.x && cpos.y < fill.y
    requires LocsAt(orig, cpos, k, locs)
    requires forall i :: 0 <= i < |orig| ==> (i in indexes <==> orig[i].position in locs)
    requires |newLocs| == |indexes|
    requires forall t :: 0 <= t < |indexes| ==>
               indexes[t] < |orig| && newLocs[t] == NonegNeighbours(orig[indexes[t]].position)
    requires forall q :: Banned(banned, q) ==> Dist(cpos, q) <= k
    requires forall q :: q in next <==> (exists t :: 0 <= t < |newLocs| && q in newLocs[t]) && !Banned(banned, q)
    requires j < |orig| && Dist(cpos, orig[j].position) == k + 1
    ensures orig[j].position in next
  {
    var q := orig[j].position;
    LayoutInside(orig, fill, j);
    var r := StepTowards(cpos, q, fill.x, fill.y);
    var i := LayoutFind(orig, fill, r);
    assert i in indexes;
    var t :| 0 <= t < |indexes| && indexes[t] == i;
    assert q in newLocs[t];
  }

  /** The bookkeeping after ring `k`: the pruned chunks become the
      references, the ring's locations are banned, and the state describes
      ring `k + 1`. */
  lemma NextState(orig: seq<Element>, fill: Vec2, cpos: Vec2, k: nat,
                  prior: seq<Element>, next: seq<Element>, locs: seq<Vec2>, indexes: seq<nat>,
                  newReferences: seq<Reference>, oldBanned: seq<seq<Vec2>>, banned: seq<seq<Vec2>>)
    requires Layout(orig, fill) && k >= 1
    requires Processed(orig, cpos, k, prior) && LocsAt(orig, cpos, k, locs) && BannedBefore(orig, cpos, k, oldBanned)
    requires forall i :: 0 <= i < |prior| ==> (i in indexes <==> prior[i].position in locs)
    requires forall t :: 0 <= t < |indexes| ==> indexes[t] < |prior|
    requires |next| == |prior|
    requires forall i :: 0 <= i < |prior| ==>
               next[i] == if i in indexes then prior[i].(values := Final(orig, cpos, i)) else prior[i]
    requires |newReferences| == |indexes|
    requires forall t :: 0 <= t < |indexes| ==>
               newReferences[t] == Reference(prior[indexes[t]].position, RuleSets(Final(orig, cpos, indexes[t])))
    requires banned == if |oldBanned| == 2 then [oldBanned[1], locs] else oldBanned + [locs]
    ensures Processed(orig, cpos, k + 1, next)
    ensures RefsAt(orig, cpos, k + 1, newReferences, indexes)
    ensures BannedBefore(orig, cpos, k + 1, banned)
    ensures forall q :: Banned(banned, q) ==> Dist(cpos, q) <= k
    ensures forall q :: q in oldBanned[|oldBanned| - 1] ==> Banned(banned, q)
  {
    forall q | Banned(banned, q) ensures Dist(cpos, q) <= k {
      var b :| b in banned && q in b;
      if b != locs {
        assert Banned(oldBanned, q);
      }
    }
    forall q | q in oldBanned[|oldBanned| - 1] ensures Banned(banned, q) {
      assert oldBanned[|oldBanned| - 1] in banned;
    }
    assert banned[|banned| - 1] == locs;
  }

  /** Ring `k + 1`'s locations are those at distance `k + 1`. */
  lemma NextLocsAt(orig: seq<Element>, fill: Vec2, cpos: Vec2, k: nat, locs: seq<Vec2>, indexes: seq<nat>,
                   oldBanned: seq<seq<Vec2>>, banned: seq<seq<Vec2>>, newLocs: seq<seq<Vec2>>, next: seq<Vec2>)
    requires Layout(orig, fill) && cpos.x < fill.x && cpos.y < fill.y && k >= 1
    requires LocsAt(orig, cpos, k, locs) && BannedBefore(orig, cpos, k, oldBanned)
    requires forall i :: 0 <= i < |orig| ==> (i in indexes <==> orig[i].position in locs)
    requires |newLocs| == |indexes|
    requires forall t :: 0 <= t < |indexes| ==>
               indexes[t] < |orig| && newLocs[t] == NonegNeighbours(orig[indexes[t]].position)
    requires forall q :: Banned(banned, q) ==> Dist(cpos, q) <= k
    requires forall q :: q in oldBanned[|oldBanned| - 1] ==> Banned(banned, q)
    requires forall q :: q in next <==> (exists t :: 0 <= t < |newLocs| && q in newLocs[t]) && !Banned(banned, q)
    ensures LocsAt(orig, cpos, k + 1, next)
  {
    forall p | p in next ensures Dist(cpos, p) == k + 1 {
      NextLocsSound(orig, fill, cpos, k, locs, indexes, oldBanned, banned, newLocs, p);
    }
    forall j | 0 <= j < |orig| && Dist(cpos, orig[j].position) == k + 1 ensures orig[j].position in next {
      NextLocsComplete(orig, fill, cpos, k, locs, indexes, banned, newLocs, next, j);
    }
  }

  /** One pass of the loop of `propagate` over a non-empty ring `k`: its
      chunks are pruned, become the references and are banned, and the
      next ring's locations are collected. */
  method NextRing(ghost orig: seq<Element>, ghost fill: Vec2, ghost cpos: Vec2, ghost k: nat,
                  elems: seq<Element>, references: seq<Reference>, ghost sources: seq<nat>,
                  locs: seq<Vec2>, banned: seq<seq<Vec2>>, indexes: seq<nat>)
    returns (next: seq<Element>, newReferences: seq<Reference>, newBanned: seq<seq<Vec2>>, nextLocs: seq<Vec2>)
    requires Layout(orig, fill) && cpos.x < fill.x && cpos.y < fill.y && k >= 1
    requires Processed(orig, cpos, k, elems) && RefsAt(orig, cpos, k, references, sources)
    requires LocsAt(orig, cpos, k, locs) && BannedBefore(orig, cpos, k, banned)
    requires forall t :: 0 <= t < |indexes| ==> indexes[t] < |elems|
    requires forall i :: 0 <= i < |elems| ==> (i in indexes <==> elems[i].position in locs)
    ensures Processed(orig, cpos, k + 1, next) && RefsAt(orig, cpos, k + 1, newReferences, indexes)
    ensures LocsAt(orig, cpos, k + 1, nextLocs) && BannedBefore(orig, cpos, k + 1, newBanned)
  {
    var newLocs;
    next, newReferences, newLocs := PruneRing(orig, cpos, k, elems, references, sources, indexes);
    newBanned := banned + [locs];
    if |newBanned| == 3 {
      newBanned := newBanned[1..];
    }
    NextState(orig, fill, cpos, k, elems, next, locs, indexes, newReferences, banned, newBanned);
    nextLocs := NextLocs(newLocs, newBanned);
    NextLocsAt(orig, fill, cpos, k, locs, indexes, banned, newBanned, newLocs, nextLocs);
  }

  /** `propagate`: prunes ring after ring until a ring holds no chunk; then
      every chunk holds exactly its final candidates. */
  method Propagate(elements: seq<Element>, center: nat, ghost fill: Vec2) returns (result: seq<Element>)
    requires center < |elements| && Layout(elements, fill)
    ensures |result| == |elements|
    ensures forall i :: 0 <= i < |elements| ==>
              result[i] == elements[i].(values := Final(elements, elements[center].position, i))
  {
    var cpos := elements[center].position;
    var currentLocs := NonegNeighbours(cpos);
    var references := [Reference(cpos, RuleSets(elements[center].values))];
    var banned := [[cpos]];
    ghost var sources: seq<nat> := [center];
    ghost var k: nat := 1;
    result := elements;
    StartState(elements, fill, center);
    LayoutInside(elements, fill, center);
    while true
      invariant k >= 1
      invariant Processed(elements, cpos, k, result) && RefsAt(elements, cpos, k, references, sources)
      invariant LocsAt(elements, cpos, k, currentLocs) && BannedBefore(elements, cpos, k, banned)
      decreases fill.x + fill.y - k
    {
      var indexes := FindIndexes(result, currentLocs);
      if indexes == [] {
        AllWithin(elements, fill, cpos, k, currentLocs);
        return;
      }
      LayoutInside(elements, fill, indexes[0]);
      result, references, banned, currentLocs := NextRing(elements, fill, cpos, k, result, references, sources,
                                                          currentLocs, banned, indexes);
      sources := indexes;
      k := k + 1;
    }
  }
}
