/** The first prototype, `Coordinator` in src/lib.rs.  It reads a character
    sample and learns, for every character with an in-sample orthogonal
    neighbour, an entity: the observed (char, neighbour, direction) triples,
    without duplicates, and a weight counting the observations.  It then
    lays out one superposition per grid cell, each holding every entity.

    The entities live in the coordinator's vector and nothing else refers
    to them, so an entity is a value and updating one in place is replacing
    its slot.  The f32 weight starts at 1.0 and grows by 1.0, so it is a
    count here. */
module Prototype {
  import opened Geometry
  import opened Arith
  import Seqs
  import Text

  datatype Direction = Up | Right | Down | Left | UpRight | DownRight | UpLeft | DownLeft

  /** (char, neighbouring char, direction of the neighbour). */
  type Validation = (char, char, Direction)

  datatype Entity = Entity(identifier: char, validations: seq<Validation>, weight: nat)

  datatype Superposition = Superposition(location: Vec2, candidates: seq<Entity>)

  /** `width` and `height` are `u32`; `as u32` keeps the low 32 bits. */
  const U32: nat := 0x1_0000_0000

  // ----------------------------------------------------------------------
  // Locations and entities

  /** `Location::orthogonal_neighbours`: up, right, down and left, the up
      and left ones only where the coordinate does not go below 0. */
  function OrthogonalNeighbours(p: Vec2): (r: seq<Option<(Vec2, Direction)>>)
    ensures |r| == 4
  {
    [ if p.y > 0 then Some((Vec2(p.x, p.y - 1), Up)) else None,
      Some((Vec2(p.x + 1, p.y), Right)),
      Some((Vec2(p.x, p.y + 1), Down)),
      if p.x > 0 then Some((Vec2(p.x - 1, p.y), Left)) else None ]
  }

  /** The neighbours are exactly the locations one step away, each with
      its own direction; up is missing iff `y == 0`, left iff `x == 0`. */
  lemma NeighboursAdjacent(p: Vec2)
    ensures OrthogonalNeighbours(p)[0].None? <==> p.y == 0
    ensures OrthogonalNeighbours(p)[3].None? <==> p.x == 0
    ensures OrthogonalNeighbours(p)[1].Some? && OrthogonalNeighbours(p)[2].Some?
    ensures forall i :: 0 <= i < 4 && OrthogonalNeighbours(p)[i].Some? ==>
              Dist(p, OrthogonalNeighbours(p)[i].value.0) == 1
    ensures forall q :: Dist(p, q) == 1 ==> exists i :: 0 <= i < 4 && OrthogonalNeighbours(p)[i] == Some((q, [Up, Right, Down, Left][i]))
  {
    var r := OrthogonalNeighbours(p);
    forall q | Dist(p, q) == 1
      ensures exists i :: 0 <= i < 4 && r[i] == Some((q, [Up, Right, Down, Left][i]))
    {
      if q.x == p.x && q.y + 1 == p.y {
        assert r[0] == Some((q, Up));
      } else if q.x == p.x + 1 {
        assert r[1] == Some((q, Right));
      } else if q.x == p.x {
        assert r[2] == Some((q, Down));
      } else {
        assert r[3] == Some((q, Left));
      }
    }
  }

  /** The test at src/lib.rs:198-209: the neighbours of (1, 1). */
  lemma NeighboursOfOneOne()
    ensures OrthogonalNeighbours(Vec2(1, 1)) ==
      [Some((Vec2(1, 0), Up)), Some((Vec2(2, 1), Right)), Some((Vec2(1, 2), Down)), Some((Vec2(0, 1), Left))]
  {
  }

  predicate DistinctValidations(vs: seq<Validation>) {
    forall i, j :: 0 <= i < j < |vs| ==> vs[i] != vs[j]
  }

  /** `Entity::add_unknown_validation`: appends `v` unless an equal triple is already there. */
  function AddUnknownValidation(e: Entity, v: Validation): (r: Entity)
    ensures r.identifier == e.identifier && r.weight == e.weight
    ensures forall w :: w in r.validations <==> w in e.validations || w == v
    ensures DistinctValidations(e.validations) ==> DistinctValidations(r.validations)
  {
    if v in e.validations then e else e.(validations := e.validations + [v])
  }

  /** Adding the same validation twice is adding it once. */
  lemma AddIdempotent(e: Entity, v: Validation)
    ensures AddUnknownValidation(AddUnknownValidation(e, v), v) == AddUnknownValidation(e, v)
  {
    assert v in AddUnknownValidation(e, v).validations;
  }

  function HasId(c: char): Entity -> bool {
    (e: Entity) => e.identifier == c
  }

  /** The index `existing_entity` finds: the first entity for `c`. */
  function Find(entities: seq<Entity>, c: char): Option<nat> {
    Seqs.First(entities, HasId(c))
  }

  predicate DistinctIds(entities: seq<Entity>) {
    forall i, j :: 0 <= i < j < |entities| ==> entities[i].identifier != entities[j].identifier
  }

  /** The weight of the entity for `c`, 0 when there is none. */
  function Weight(entities: seq<Entity>, c: char): nat {
    match Find(entities, c)
    case None => 0
    case Some(k) => entities[k].weight
  }

  /** The validations of the entity for `c`, none when there is none. */
  function ValidationsOf(entities: seq<Entity>, c: char): seq<Validation> {
    match Find(entities, c)
    case None => []
    case Some(k) => entities[k].validations
  }

  // ----------------------------------------------------------------------
  // What `process_sample` learns

  /** One observation: the entity for `v.0` gets the validation and one
      more weight, or a new entity starts with it and weight 1. */
  function Absorb(entities: seq<Entity>, v: Validation): seq<Entity> {
    match Find(entities, v.0)
    case Some(k) => entities[k := AddUnknownValidation(entities[k], v).(weight := entities[k].weight + 1)]
    case None => entities + [Entity(v.0, [v], 1)]
  }

  /** The observations, one after the other. */
  function AbsorbAll(entities: seq<Entity>, obs: seq<Validation>): seq<Entity> {
    if obs == [] then entities else Absorb(AbsorbAll(entities, obs[..|obs| - 1]), obs[|obs| - 1])
  }

  /** How many observations start from `c`. */
  function Count(obs: seq<Validation>, c: char): nat {
    if obs == [] then 0 else Count(obs[..|obs| - 1], c) + (if obs[|obs| - 1].0 == c then 1 else 0)
  }

  predicate InSample(lines: seq<string>, q: Vec2) {
    q.y < |lines| && q.x < |lines[q.y]|
  }

  /** The observation from the char at (ix, iy) towards neighbour `n`, if
      that neighbour lies in the sample. */
  function Observed(lines: seq<string>, ix: nat, iy: nat, n: Option<(Vec2, Direction)>): seq<Validation>
    requires InSample(lines, Vec2(ix, iy))
  {
    match n
    case None => []
    case Some((loc, dir)) =>
      if InSample(lines, loc) then [(lines[iy][ix], lines[loc.y][loc.x], dir)] else []
  }

  /** The observations from the char at (ix, iy) towards its first `k` neighbours. */
  function NeighbourObservations(lines: seq<string>, ix: nat, iy: nat, k: nat): seq<Validation>
    requires InSample(lines, Vec2(ix, iy)) && k <= 4
  {
    if k == 0 then []
    else NeighbourObservations(lines, ix, iy, k - 1) + Observed(lines, ix, iy, OrthogonalNeighbours(Vec2(ix, iy))[k - 1])
  }

  /** The observations from the first `n` chars of line `iy`. */
  function LineObservations(lines: seq<string>, iy: nat, n: nat): seq<Validation>
    requires iy < |lines| && n <= |lines[iy]|
  {
    if n == 0 then [] else LineObservations(lines, iy, n - 1) + NeighbourObservations(lines, n - 1, iy, 4)
  }

  /** The observations from the first `n` lines. */
  function SampleObservations(lines: seq<string>, n: nat): seq<Validation>
    requires n <= |lines|
  {
    if n == 0 then [] else SampleObservations(lines, n - 1) + LineObservations(lines, n - 1, |lines[n - 1]|)
  }

  /** The char at (ix, iy) has a neighbour in the sample. */
  ghost predicate Connected(lines: seq<string>, ix: nat, iy: nat) {
    exists q :: Dist(Vec2(ix, iy), q) == 1 && InSample(lines, q)
  }

  /** Some observation starts from `c`. */
  ghost predicate Mentions(obs: seq<Validation>, c: char) {
    exists i :: 0 <= i < |obs| && obs[i].0 == c
  }

  // ----------------------------------------------------------------------
  // The superposition grid

  /** The superpositions of column `x`, from `y = 0` to `h - 1`. */
  function Column(x: nat, h: nat, entities: seq<Entity>): seq<Superposition> {
    seq(h, y requires 0 <= y < h => Superposition(Vec2(x, y), entities))
  }

  /** The superpositions of the first `w` columns, column after column. */
  function Populated(w: nat, h: nat, entities: seq<Entity>): seq<Superposition> {
    if w == 0 then [] else Populated(w - 1, h, entities) + Column(w - 1, h, entities)
  }

  // ----------------------------------------------------------------------
  // The coordinator

  class Coordinator {
    var superpositions: seq<Superposition>
    var width: nat
    var height: nat
    var entities: seq<Entity>

    /** `Coordinator::new`: no superpositions, no entities, size 0 by 0. */
    constructor ()
      ensures superpositions == [] && entities == [] && width == 0 && height == 0
    {
      superpositions := [];
      width := 0;
      height := 0;
      entities := [];
    }

    /** `existing_entity`: the first entity for `id`, looked up without
        changing anything. */
    method ExistingEntity(id: char) returns (found: Option<nat>)
      ensures found == Find(entities, id)
      ensures found.Some? <==> exists i :: 0 <= i < |entities| && entities[i].identifier == id
    {
      var i := 0;
      while i < |entities|
        invariant i <= |entities|
        invariant forall j :: 0 <= j < i ==> entities[j].identifier != id
      {
        if entities[i].identifier == id {
          Seqs.FirstIs(entities, HasId(id), Some(i));
          return Some(i);
        }
        i := i + 1;
      }
      Seqs.FirstIs(entities, HasId(id), None);
      return None;
    }

    /** One observation: the validation goes to the entity for its char,
        whose weight grows by one, or to a new entity of weight 1. */
    method Observe(v: Validation)
      modifies this
      ensures superpositions == old(superpositions) && width == old(width) && height == old(height)
      ensures entities == Absorb(old(entities), v)
    {
      var found := ExistingEntity(v.0);
      match found {
        case Some(k) =>
          entities := entities[k := AddUnknownValidation(entities[k], v)];
          entities := entities[k := entities[k].(weight := entities[k].weight + 1)];
        case None =>
          entities := entities + [Entity(v.0, [v], 1)];
      }
    }

    /** The neighbour loop of `process_sample` for the char at (ix, iy). */
    method ProcessCell(lines: seq<string>, ix: nat, iy: nat)
      requires InSample(lines, Vec2(ix, iy))
      modifies this
      ensures superpositions == old(superpositions) && width == old(width) && height == old(height)
      ensures entities == AbsorbAll(old(entities), NeighbourObservations(lines, ix, iy, 4))
    {
      var neighbours := OrthogonalNeighbours(Vec2(ix, iy));
      for k := 0 to 4
        invariant superpositions == old(superpositions) && width == old(width) && height == old(height)
        invariant entities == AbsorbAll(old(entities), NeighbourObservations(lines, ix, iy, k))
      {
        AbsorbAllAppend(old(entities), NeighbourObservations(lines, ix, iy, k), Observed(lines, ix, iy, neighbours[k]));
        match neighbours[k] {
          case Some((loc, dir)) =>
            if loc.y < |lines| {
              var foundLine := lines[loc.y];
              if loc.x < |foundLine| {
                var v := (lines[iy][ix], foundLine[loc.x], dir);
                AbsorbSingle(entities, v);
                Observe(v);
              }
            }
          case None =>
        }
      }
    }

    /** The char loop of `process_sample` for line `iy`. */
    method ProcessLine(lines: seq<string>, iy: nat)
      requires iy < |lines|
      modifies this
      ensures superpositions == old(superpositions) && width == old(width) && height == old(height)
      ensures entities == AbsorbAll(old(entities), LineObservations(lines, iy, |lines[iy]|))
    {
      for ix := 0 to |lines[iy]|
        invariant superpositions == old(superpositions) && width == old(width) && height == old(height)
        invariant entities == AbsorbAll(old(entities), LineObservations(lines, iy, ix))
      {
        AbsorbAllAppend(old(entities), LineObservations(lines, iy, ix), NeighbourObservations(lines, ix, iy, 4));
        ProcessCell(lines, ix, iy);
      }
    }

    /** `process_sample`: the height is the line count and the width the
        char count of the first line (left as it was when the truncated
        height is 0), both cut to 32 bits; every char then observes its
        in-sample neighbours, line by line and char by char. */
    method ProcessSample(s: string)
      modifies this
      ensures superpositions == old(superpositions)
      ensures height == |Text.Lines(s)| % U32
      ensures width == if height != 0 then |Text.Lines(s)[0]| % U32 else old(width)
      ensures entities == AbsorbAll(old(entities), SampleObservations(Text.Lines(s), |Text.Lines(s)|))
    {
      var lines := Text.Lines(s);
      height := |lines| % U32;
      if height != 0 {
        width := |lines[0]| % U32;
      }
      for iy := 0 to |lines|
        invariant superpositions == old(superpositions)
        invariant height == |lines| % U32
        invariant width == if height != 0 then |lines[0]| % U32 else old(width)
        invariant entities == AbsorbAll(old(entities), SampleObservations(lines, iy))
      {
        AbsorbAllAppend(old(entities), SampleObservations(lines, iy), LineObservations(lines, iy, |lines[iy]|));
        ProcessLine(lines, iy);
      }
    }

    /** The inner loop of `populate_superpositions`: column `x`. */
    method PushColumn(x: nat)
      modifies this
      ensures width == old(width) && height == old(height) && entities == old(entities)
      ensures superpositions == old(superpositions) + Column(x, height, entities)
    {
      for y := 0 to height
        invariant width == old(width) && height == old(height) && entities == old(entities)
        invariant superpositions == old(superpositions) + Column(x, y, entities)
      {
        assert Column(x, y + 1, entities) == Column(x, y, entities) + [Superposition(Vec2(x, y), entities)];
        superpositions := superpositions + [Superposition(Vec2(x, y), entities)];
      }
    }

    /** `populate_superpositions`: appends one superposition per cell of the
        `width` by `height` grid, column by column, each holding a copy of
        every entity. */
    method PopulateSuperpositions()
      modifies this
      ensures width == old(width) && height == old(height) && entities == old(entities)
      ensures superpositions == old(superpositions) + Populated(width, height, entities)
    {
      for x := 0 to width
        invariant width == old(width) && height == old(height) && entities == old(entities)
        invariant superpositions == old(superpositions) + Populated(x, height, entities)
      {
        PushColumn(x);
      }
    }
  }

  // ----------------------------------------------------------------------
  // Properties

  lemma {:induction false} AbsorbAllAppend(entities: seq<Entity>, a: seq<Validation>, b: seq<Validation>)
    ensures AbsorbAll(entities, a + b) == AbsorbAll(AbsorbAll(entities, a), b)
    decreases |b|
  {
    if b != [] {
      var ab := a + b;
      assert ab != [] && ab[|ab| - 1] == b[|b| - 1];
      assert ab[..|ab| - 1] == a + b[..|b| - 1];
      AbsorbAllAppend(entities, a, b[..|b| - 1]);
    } else {
      assert a + b == a;
    }
  }

  lemma AbsorbSingle(entities: seq<Entity>, v: Validation)
    ensures AbsorbAll(entities, [v]) == Absorb(entities, v)
  {
    assert [v][..0] == [];
  }

  lemma FindSome(entities: seq<Entity>, c: char)
    ensures Find(entities, c).Some? <==> exists i :: 0 <= i < |entities| && entities[i].identifier == c
  {
    if Find(entities, c).Some? {
      assert entities[Find(entities, c).value].identifier == c;
    }
  }

  /** One observation: the entity for `c` exists afterwards iff it did or
      the observation is from `c`; its weight grows by one and its
      validations gain `v` exactly then; identifiers stay distinct. */
  lemma AbsorbOne(entities: seq<Entity>, v: Validation, c: char)
    ensures Find(Absorb(entities, v), c).Some? <==> Find(entities, c).Some? || v.0 == c
    ensures Weight(Absorb(entities, v), c) == Weight(entities, c) + (if v.0 == c then 1 else 0)
    ensures forall w :: w in ValidationsOf(Absorb(entities, v), c) <==>
              w in ValidationsOf(entities, c) || (v.0 == c && w == v)
    ensures DistinctIds(entities) ==> DistinctIds(Absorb(entities, v))
  {
    var after := Absorb(entities, v);
    if Find(entities, v.0).Some? {
      assert |after| == |entities|;
      assert forall i :: 0 <= i < |after| ==> after[i].identifier == entities[i].identifier;
      Seqs.FirstIs(after, HasId(c), Find(entities, c));
    } else {
      assert forall i :: 0 <= i < |entities| ==> after[i] == entities[i];
      if c == v.0 {
        Seqs.FirstIs(after, HasId(c), Some(|entities|));
      } else {
        Seqs.FirstIs(after, HasId(c), Find(entities, c));
      }
    }
  }

  /** After every observation in turn, the entity for `c` exists iff it
      did or some observation is from `c`. */
  lemma {:induction false} AbsorbAllFinds(entities: seq<Entity>, obs: seq<Validation>, c: char)
    ensures Find(AbsorbAll(entities, obs), c).Some? <==> Find(entities, c).Some? || Mentions(obs, c)
    decreases |obs|
  {
    if obs != [] {
      var init, v := obs[..|obs| - 1], obs[|obs| - 1];
      AbsorbAllFinds(entities, init, c);
      AbsorbOne(AbsorbAll(entities, init), v, c);
      assert obs == init + [v];
      MentionsAppend(init, [v], c);
    }
  }

  /** After every observation in turn, the weight for `c` has grown by the
      number of observations from `c`. */
  lemma {:induction false} AbsorbAllWeight(entities: seq<Entity>, obs: seq<Validation>, c: char)
    ensures Weight(AbsorbAll(entities, obs), c) == Weight(entities, c) + Count(obs, c)
    decreases |obs|
  {
    if obs != [] {
      var init, v := obs[..|obs| - 1], obs[|obs| - 1];
      AbsorbAllWeight(entities, init, c);
      AbsorbOne(AbsorbAll(entities, init), v, c);
    }
  }

  /** After every observation in turn, the validations for `c` are the old
      ones and the observations from `c`. */
  lemma {:induction false} AbsorbAllValidations(entities: seq<Entity>, obs: seq<Validation>, c: char)
    ensures forall w :: w in ValidationsOf(AbsorbAll(entities, obs), c) <==>
              w in ValidationsOf(entities, c) || (w in obs && w.0 == c)
    decreases |obs|
  {
    if obs != [] {
      var init, v := obs[..|obs| - 1], obs[|obs| - 1];
      AbsorbAllValidations(entities, init, c);
      AbsorbOne(AbsorbAll(entities, init), v, c);
      assert obs == init + [v];
    }
  }

  /** Observations never create a second entity for a char. */
  lemma {:induction false} AbsorbAllDistinct(entities: seq<Entity>, obs: seq<Validation>)
    requires DistinctIds(entities)
    ensures DistinctIds(AbsorbAll(entities, obs))
    decreases |obs|
  {
    if obs != [] {
      var init, v := obs[..|obs| - 1], obs[|obs| - 1];
      AbsorbAllDistinct(entities, init);
      AbsorbOne(AbsorbAll(entities, init), v, v.0);
    }
  }

  lemma MentionsAppend(a: seq<Validation>, b: seq<Validation>, c: char)
    ensures Mentions(a + b, c) <==> Mentions(a, c) || Mentions(b, c)
  {
    if Mentions(a + b, c) {
      var i :| 0 <= i < |a + b| && (a + b)[i].0 == c;
      if i < |a| {
        assert a[i].0 == c;
      } else {
        assert b[i - |a|].0 == c;
      }
    }
    if Mentions(a, c) {
      var i :| 0 <= i < |a| && a[i].0 == c;
      assert (a + b)[i].0 == c;
    }
    if Mentions(b, c) {
      var i :| 0 <= i < |b| && b[i].0 == c;
      assert (a + b)[|a| + i].0 == c;
    }
  }

  /** Every observation the char at (ix, iy) makes starts from it. */
  lemma {:induction false} NeighbourStarts(lines: seq<string>, ix: nat, iy: nat, k: nat)
    requires InSample(lines, Vec2(ix, iy)) && k <= 4
    ensures forall i :: 0 <= i < |NeighbourObservations(lines, ix, iy, k)| ==>
              NeighbourObservations(lines, ix, iy, k)[i].0 == lines[iy][ix]
  {
    if k > 0 {
      NeighbourStarts(lines, ix, iy, k - 1);
    }
  }

  lemma CellUnfold(lines: seq<string>, ix: nat, iy: nat)
    requires InSample(lines, Vec2(ix, iy))
    ensures var r := OrthogonalNeighbours(Vec2(ix, iy));
            NeighbourObservations(lines, ix, iy, 4) ==
              Observed(lines, ix, iy, r[0]) + Observed(lines, ix, iy, r[1]) +
              Observed(lines, ix, iy, r[2]) + Observed(lines, ix, iy, r[3])
  {
    var r := OrthogonalNeighbours(Vec2(ix, iy));
    var o0, o1, o2, o3 := Observed(lines, ix, iy, r[0]), Observed(lines, ix, iy, r[1]),
                          Observed(lines, ix, iy, r[2]), Observed(lines, ix, iy, r[3]);
    assert NeighbourObservations(lines, ix, iy, 1) == [] + o0 == o0;
    assert NeighbourObservations(lines, ix, iy, 2) == o0 + o1;
    assert NeighbourObservations(lines, ix, iy, 3) == o0 + o1 + o2;
  }

  /** The neighbour in direction `i` of `p` for a location `q` one step away. */
  lemma NeighbourIndex(p: Vec2, q: Vec2) returns (i: nat)
    requires Dist(p, q) == 1
    ensures i < 4 && OrthogonalNeighbours(p)[i] == Some((q, [Up, Right, Down, Left][i]))
  {
    if q.x == p.x && q.y + 1 == p.y {
      i := 0;
    } else if q.x == p.x + 1 {
      i := 1;
    } else if q.x == p.x {
      i := 2;
    } else {
      i := 3;
    }
  }

  /** The char at (ix, iy) makes an observation iff it has a neighbour in
      the sample. */
  lemma CellObservations(lines: seq<string>, ix: nat, iy: nat)
    requires InSample(lines, Vec2(ix, iy))
    ensures NeighbourObservations(lines, ix, iy, 4) != [] <==> Connected(lines, ix, iy)
  {
    var p := Vec2(ix, iy);
    var r := OrthogonalNeighbours(p);
    var o0, o1, o2, o3 := Observed(lines, ix, iy, r[0]), Observed(lines, ix, iy, r[1]),
                          Observed(lines, ix, iy, r[2]), Observed(lines, ix, iy, r[3]);
    CellUnfold(lines, ix, iy);
    var all := NeighbourObservations(lines, ix, iy, 4);
    assert |all| == |o0| + |o1| + |o2| + |o3|;
    if Connected(lines, ix, iy) {
      var q :| Dist(p, q) == 1 && InSample(lines, q);
      var i := NeighbourIndex(p, q);
      if i == 0 {
        assert o0 != [];
      } else if i == 1 {
        assert o1 != [];
      } else if i == 2 {
        assert o2 != [];
      } else {
        assert o3 != [];
      }
    }
    if all != [] {
      if o0 != [] {
        assert Dist(p, r[0].value.0) == 1 && InSample(lines, r[0].value.0);
      } else if o1 != [] {
        assert Dist(p, r[1].value.0) == 1 && InSample(lines, r[1].value.0);
      } else if o2 != [] {
        assert Dist(p, r[2].value.0) == 1 && InSample(lines, r[2].value.0);
      } else {
        assert Dist(p, r[3].value.0) == 1 && InSample(lines, r[3].value.0);
      }
    }
  }

  /** The char at (ix, iy) observes `c` iff it is `c` and has a neighbour in the sample. */
  lemma CellMentions(lines: seq<string>, ix: nat, iy: nat, c: char)
    requires InSample(lines, Vec2(ix, iy))
    ensures Mentions(NeighbourObservations(lines, ix, iy, 4), c) <==> lines[iy][ix] == c && Connected(lines, ix, iy)
  {
    var cell := NeighbourObservations(lines, ix, iy, 4);
    NeighbourStarts(lines, ix, iy, 4);
    CellObservations(lines, ix, iy);
    if lines[iy][ix] == c && Connected(lines, ix, iy) {
      assert cell[0].0 == c;
    }
  }

  /** One of the first `n` chars of line `iy` is `c` and has a neighbour in the sample. */
  ghost predicate LineLearns(lines: seq<string>, iy: nat, n: nat, c: char)
    requires iy < |lines| && n <= |lines[iy]|
  {
    exists ix :: 0 <= ix < n && lines[iy][ix] == c && Connected(lines, ix, iy)
  }

  /** The first `n` chars of line `iy` observe `c` iff one of them is `c`
      and has a neighbour in the sample. */
  lemma {:induction false} LineMentions(lines: seq<string>, iy: nat, n: nat, c: char)
    requires iy < |lines| && n <= |lines[iy]|
    ensures Mentions(LineObservations(lines, iy, n), c) <==> LineLearns(lines, iy, n, c)
  {
    if n > 0 {
      var cell := NeighbourObservations(lines, n - 1, iy, 4);
      assert LineObservations(lines, iy, n) == LineObservations(lines, iy, n - 1) + cell;
      LineMentions(lines, iy, n - 1, c);
      MentionsAppend(LineObservations(lines, iy, n - 1), cell, c);
      CellMentions(lines, n - 1, iy, c);
      if LineLearns(lines, iy, n, c) {
        var ix :| 0 <= ix < n && lines[iy][ix] == c && Connected(lines, ix, iy);
        if ix < n - 1 {
          assert LineLearns(lines, iy, n - 1, c);
        }
      }
      if LineLearns(lines, iy, n - 1, c) {
        var ix :| 0 <= ix < n - 1 && lines[iy][ix] == c && Connected(lines, ix, iy);
        assert LineLearns(lines, iy, n, c);
      }
    } else {
      assert !LineLearns(lines, iy, 0, c);
    }
  }

  /** `c` is a char of the sample with a neighbour in the sample. */
  ghost predicate Learns(lines: seq<string>, n: nat, c: char)
    requires n <= |lines|
  {
    exists iy, ix :: 0 <= iy < n && 0 <= ix < |lines[iy]| && lines[iy][ix] == c && Connected(lines, ix, iy)
  }

  lemma {:induction false} SampleMentions(lines: seq<string>, n: nat, c: char)
    requires n <= |lines|
    ensures Mentions(SampleObservations(lines, n), c) <==> Learns(lines, n, c)
  {
    if n > 0 {
      var line := LineObservations(lines, n - 1, |lines[n - 1]|);
      SampleMentions(lines, n - 1, c);
      MentionsAppend(SampleObservations(lines, n - 1), line, c);
      LineMentions(lines, n - 1, |lines[n - 1]|, c);
      if Learns(lines, n, c) {
        var iy, ix :| 0 <= iy < n && 0 <= ix < |lines[iy]| && lines[iy][ix] == c && Connected(lines, ix, iy);
        if iy < n - 1 {
          assert Learns(lines, n - 1, c);
        }
      }
      if Learns(lines, n - 1, c) {
        var iy, ix :| 0 <= iy < n - 1 && 0 <= ix < |lines[iy]| && lines[iy][ix] == c && Connected(lines, ix, iy);
        assert Learns(lines, n, c);
      }
    }
  }

  /** What `process_sample` learns from a sample on a fresh coordinator:
      one entity per char that has a neighbour in the sample, no two for
      the same char; the entity's validations are the observations from
      its char, and its weight is how many there are. */
  lemma ProcessedEntities(lines: seq<string>, c: char)
    ensures var obs := SampleObservations(lines, |lines|);
            var entities := AbsorbAll([], obs);
            DistinctIds(entities) &&
            ((exists i :: 0 <= i < |entities| && entities[i].identifier == c) <==> Learns(lines, |lines|, c)) &&
            Weight(entities, c) == Count(obs, c) &&
            forall w :: w in ValidationsOf(entities, c) <==> w in obs && w.0 == c
  {
    var obs := SampleObservations(lines, |lines|);
    AbsorbAllFinds([], obs, c);
    AbsorbAllWeight([], obs, c);
    AbsorbAllValidations([], obs, c);
    AbsorbAllDistinct([], obs);
    SampleMentions(lines, |lines|, c);
    FindSome(AbsorbAll([], obs), c);
  }

  /** `populate_superpositions` lays the grid out column by column: entry
      `Flat(x, y, h)` is the superposition at (x, y), holding every entity. */
  lemma {:induction false} PopulatedLayout(w: nat, h: nat, entities: seq<Entity>)
    ensures |Populated(w, h, entities)| == Mul(w, h)
    ensures forall i :: 0 <= i < Mul(w, h) ==>
              var s := Populated(w, h, entities)[i];
              s.candidates == entities && s.location.x < w && s.location.y < h &&
              i == Flat(s.location.x, s.location.y, h)
  {
    if w > 0 {
      PopulatedLayout(w - 1, h, entities);
    }
  }

  /** The test at src/lib.rs:213-221: with one entity 'A', the lookup
      finds 'A' and not 'B'. */
  lemma ExistingEntityTest()
    ensures Find([Entity('A', [], 1)], 'A') == Some(0)
    ensures Find([Entity('A', [], 1)], 'B') == None
  {
    Seqs.FirstIs([Entity('A', [], 1)], HasId('A'), Some(0));
    Seqs.FirstIs([Entity('A', [], 1)], HasId('B'), None);
  }

  /** The tests at src/lib.rs:223-238: the sample "LCS" is one line of
      three chars, each with a neighbour, so a fresh coordinator learns
      three entities and lays out three superpositions. */
  lemma SampleLcs()
    ensures Text.Lines("LCS") == ["LCS"]
    ensures |AbsorbAll([], SampleObservations(["LCS"], 1))| == 3
    ensures |Populated(3, 1, AbsorbAll([], SampleObservations(["LCS"], 1)))| == 3
  {
    Text.OneLine("LCS");
    var lines := ["LCS"];
    var obs := SampleObservations(lines, 1);
    var entities := AbsorbAll([], obs);
    forall c | c in "LCS"
      ensures exists i :: 0 <= i < |entities| && entities[i].identifier == c
    {
      var ix :| 0 <= ix < 3 && lines[0][ix] == c;
      var q := if ix < 2 then Vec2(ix + 1, 0) else Vec2(1, 0);
      assert Dist(Vec2(ix, 0), q) == 1 && InSample(lines, q);
      assert Learns(lines, 1, c);
      ProcessedEntities(lines, c);
    }
    forall i | 0 <= i < |entities|
      ensures entities[i].identifier in "LCS"
    {
      var c := entities[i].identifier;
      ProcessedEntities(lines, c);
      var iy, ix :| 0 <= iy < 1 && 0 <= ix < |lines[iy]| && lines[iy][ix] == c && Connected(lines, ix, iy);
    }
    ProcessedEntities(lines, 'L');
    DistinctThree(entities);
    PopulatedLayout(3, 1, entities);
  }

  /** Entities with distinct identifiers drawn from "LCS", covering all three, are three. */
  lemma DistinctThree(entities: seq<Entity>)
    requires DistinctIds(entities)
    requires forall i :: 0 <= i < |entities| ==> entities[i].identifier in "LCS"
    requires forall c :: c in "LCS" ==> exists i :: 0 <= i < |entities| && entities[i].identifier == c
    ensures |entities| == 3
  {
    var ids := set i | 0 <= i < |entities| :: entities[i].identifier;
    assert "LCS" == ['L', 'C', 'S'];
    forall x | x in ids
      ensures x in {'L', 'C', 'S'}
    {
      var i :| 0 <= i < |entities| && entities[i].identifier == x;
      assert x in "LCS";
    }
    forall x | x in {'L', 'C', 'S'}
      ensures x in ids
    {
      assert x in "LCS";
    }
    assert ids == {'L', 'C', 'S'};
    IdsCount(entities);
  }

  lemma {:induction false} IdsCount(entities: seq<Entity>)
    requires DistinctIds(entities)
    ensures |set i | 0 <= i < |entities| :: entities[i].identifier| == |entities|
  {
    if entities != [] {
      var init := entities[..|entities| - 1];
      IdsCount(init);
      var a := set i | 0 <= i < |init| :: init[i].identifier;
      var b := set i | 0 <= i < |entities| :: entities[i].identifier;
      assert b == a + {entities[|entities| - 1].identifier};
      assert entities[|entities| - 1].identifier !in a;
    }
  }
}
