/** The verdict on each placement in plain numbers, and that the first bad verdict decides. */
module BrickVerdicts {
  import opened Wrappers
  import opened Sequences
  import opened Bricks

  ghost predicate Whole(p: Placement) {
    p.x.Some? && p.y.Some? && p.z.Some? && p.rotation.Some? && p.step.Some?
  }

  // Which sides of the part lie along the grid's two directions: swapped by a quarter or three quarters of a turn.
  ghost function Along(p: Placement, part: Part): (int, int)
    requires Whole(p)
  {
    if p.rotation.value % 180 == 0 then (part.studs_x, part.studs_z) else (part.studs_z, part.studs_x)
  }

  ghost predicate KnownSize(a: int, b: int) {
    || (a == 1 && b in {1, 2, 4, 6, 8}) || (b == 1 && a in {2, 4, 6, 8})
    || (a == 2 && b in {2, 4, 6}) || (b == 2 && a in {4, 6})
  }

  ghost predicate Turned(p: Placement)
    requires Whole(p)
  {
    p.rotation.value % 90 == 0 && p.y.value >= 0 && p.y.value % 3 == 0 && p.step.value >= 1
  }

  ghost predicate Usable(p: Placement, catalog: Catalog) {
    && p.part_id in catalog && catalog[p.part_id].geometry_profile == "stud_tube_rect"
    && catalog[p.part_id].plates_y == 3 && catalog[p.part_id].certification_level == "certified"
  }

  // Inside twenty by twenty studs and twenty bricks of three plates, seen from this corner.
  ghost predicate Inside(p: Placement, part: Part, min_x: int, min_z: int)
    requires Whole(p)
  {
    && p.x.value - min_x + Along(p, part).0 <= 20
    && p.z.value - min_z + Along(p, part).1 <= 20
    && p.y.value < 60
  }

  ghost predicate Meet(p: Placement, q: Placement, catalog: Catalog)
    requires Whole(p) && Whole(q) && p.part_id in catalog && q.part_id in catalog
  {
    var a, b := Along(p, catalog[p.part_id]), Along(q, catalog[q.part_id]);
    && p.y.value == q.y.value
    && p.x.value < q.x.value + b.0 && q.x.value < p.x.value + a.0
    && p.z.value < q.z.value + b.1 && q.z.value < p.z.value + a.1
  }

  ghost predicate AllWhole(ps: seq<Placement>) {
    forall i :: 0 <= i < |ps| ==> Whole(ps[i])
  }

  ghost predicate HasOwnId(ps: seq<Placement>, i: nat)
    requires i < |ps|
  {
    ps[i].id.Some? && ps[i].id.value != "" && forall j :: 0 <= j < i ==> ps[j].id != ps[i].id
  }

  ghost predicate Hits(ps: seq<Placement>, i: nat, catalog: Catalog)
    requires i < |ps| && AllWhole(ps)
  {
    exists j :: 0 <= j < i && ps[i].part_id in catalog && ps[j].part_id in catalog && Meet(ps[j], ps[i], catalog)
  }

  /** The first test that placement i fails, next to the placements before it. */
  ghost function Verdict(ps: seq<Placement>, i: nat, catalog: Catalog, min_x: int, min_z: int): Option<Error>
    requires i < |ps| && AllWhole(ps)
  {
    var p := ps[i];
    if !HasOwnId(ps, i) then Some(InvalidId)
    else if !Turned(p) then Some(Transform)
    else if !Usable(p, catalog) then Some(UnsupportedPart)
    else if !KnownSize(catalog[p.part_id].studs_x, catalog[p.part_id].studs_z) then Some(Dimension)
    else if !Inside(p, catalog[p.part_id], min_x, min_z) then Some(Grid)
    else if Hits(ps, i, catalog) then Some(Collision)
    else None
  }

  // The brick of a placement: its sides, its distance from the corner, and its height in bricks.
  ghost predicate Shows(b: Brick, p: Placement, part: Part, min_x: int, min_z: int)
    requires Whole(p)
  {
    && (b.h, b.w) == Along(p, part) && b.x == p.x.value - min_x && b.y == p.z.value - min_z && 3 * b.z == p.y.value
  }

  lemma StandardIsKnown(p: Placement, part: Part)
    requires Integers(p)
    ensures Standard(Footprint(p, part)) <==> KnownSize(part.studs_x, part.studs_z)
  {
  }

  lemma SupportedIsTested(p: Placement, catalog: Catalog)
    requires Integers(p)
    ensures Supported(p, catalog) <==>
            p.id.Some? && p.id.value != "" && Turned(p) && Usable(p, catalog)
            && KnownSize(catalog[p.part_id].studs_x, catalog[p.part_id].studs_z)
  {
    if Usable(p, catalog) {
      StandardIsKnown(p, catalog[p.part_id]);
    }
  }

  lemma BrickShows(p: Placement, part: Part, min_x: int, min_z: int)
    requires Integers(p) && Upright(p)
    ensures Shows(BrickOf(p, part, min_x, min_z), p, part, min_x, min_z)
    ensures Fits(BrickOf(p, part, min_x, min_z)) <==> Inside(p, part, min_x, min_z)
  {
  }

  // How far the fold has come: every placement before i has passed.
  ghost predicate Passed(ps: seq<Placement>, i: nat, catalog: Catalog, min_x: int, min_z: int)
    requires i <= |ps| && AllWhole(ps)
  {
    forall j :: 0 <= j < i ==> Verdict(ps, j, catalog, min_x, min_z) == None
  }

  lemma WholePrefix(ps: seq<Placement>, i: nat)
    requires AllWhole(ps) && i <= |ps|
    ensures AllIntegers(ps[..i])
  {
  }

  lemma IdsSeen(ps: seq<Placement>, i: nat)
    requires i < |ps| && ps[i].id.Some? && forall j :: 0 <= j < i ==> ps[j].id.Some?
    ensures ps[i].id.value in Elements(Map(Id, ps[..i])) <==> exists j :: 0 <= j < i && ps[j].id == ps[i].id
  {
    if j :| 0 <= j < i && ps[j].id == ps[i].id {
      assert Map(Id, ps[..i])[j] == ps[i].id.value;
    }
    if ps[i].id.value in Elements(Map(Id, ps[..i])) {
      var j :| 0 <= j < i && Map(Id, ps[..i])[j] == ps[i].id.value;
      assert ps[j].id == ps[i].id;
    }
  }

  lemma BricksBefore(ps: seq<Placement>, i: nat, catalog: Catalog, min_x: int, min_z: int)
    requires AllWhole(ps) && i < |ps| && AllIntegers(ps[..i]) && AllSupported(ps[..i], catalog)
    requires Upright(ps[i]) && Usable(ps[i], catalog)
    ensures Clear(BrickOf(ps[i], catalog[ps[i].part_id], min_x, min_z), BricksOf(ps[..i], catalog, min_x, min_z)) <==> !Hits(ps, i, catalog)
  {
    var b, bs := BrickOf(ps[i], catalog[ps[i].part_id], min_x, min_z), BricksOf(ps[..i], catalog, min_x, min_z);
    forall j | 0 <= j < i
      ensures ps[j].part_id in catalog && (Overlap(bs[j], b) <==> Meet(ps[j], ps[i], catalog))
    {
      assert ps[..i][j] in ps[..i] && Upright(ps[j]);
      MeetIsOverlap(ps[j], ps[i], catalog, min_x, min_z);
    }
    if Hits(ps, i, catalog) {
      var j :| 0 <= j < i && ps[i].part_id in catalog && ps[j].part_id in catalog && Meet(ps[j], ps[i], catalog);
      assert bs[j] in bs;
    }
  }

  lemma MeetIsOverlap(p: Placement, q: Placement, catalog: Catalog, min_x: int, min_z: int)
    requires Integers(p) && Integers(q) && Upright(p) && Upright(q) && p.part_id in catalog && q.part_id in catalog
    ensures Overlap(BrickOf(p, catalog[p.part_id], min_x, min_z), BrickOf(q, catalog[q.part_id], min_x, min_z)) <==> Meet(p, q, catalog)
  {
    LayersExactly(p.y.value, q.y.value);
  }

  // One step of the fold gives what the verdict says.
  lemma StepIsVerdict(s: Progress, ps: seq<Placement>, i: nat, catalog: Catalog, min_x: int, min_z: int)
    requires AllWhole(ps) && i < |ps| && AllIntegers(ps[..i])
    requires Placeable(ps[..i], catalog, min_x, min_z) && Reached(s, ps[..i], catalog, min_x, min_z)
    ensures var r, v := Step(s, ps[i], catalog, min_x, min_z), Verdict(ps, i, catalog, min_x, min_z);
            if v == None then r.Ok? else r == Err(v.value)
  {
    var p := ps[i];
    forall j | 0 <= j < i ensures ps[j].id.Some? {
      assert ps[..i][j] in ps[..i] && Supported(ps[..i][j], catalog);
    }
    if p.id.Some? {
      IdsSeen(ps, i);
    }
    if HasOwnId(ps, i) && Turned(p) && Usable(p, catalog) {
      StandardIsKnown(p, catalog[p.part_id]);
      BrickShows(p, catalog[p.part_id], min_x, min_z);
      if Standard(Footprint(p, catalog[p.part_id])) {
        BricksBefore(ps, i, catalog, min_x, min_z);
        BricksSolid(ps[..i], catalog, min_x, min_z);
        StandardIsSolid(p, catalog[p.part_id], min_x, min_z);
        ClearOfTaken(BricksOf(ps[..i], catalog, min_x, min_z), BrickOf(p, catalog[p.part_id], min_x, min_z));
      }
    }
  }

  lemma AllIntegersHere(ps: seq<Placement>)
    requires AllWhole(ps)
    ensures AllIntegers(ps)
  {
  }

  lemma VerdictNext(ps: seq<Placement>, i: nat, catalog: Catalog, min_x: int, min_z: int)
    requires AllWhole(ps) && i < |ps| && AllIntegers(ps) && AllIntegers(ps[..i]) && AllIntegers(ps[..i + 1])
    requires Fold(ps[..i], catalog, min_x, min_z).Ok?
    ensures var r, v := Fold(ps[..i + 1], catalog, min_x, min_z), Verdict(ps, i, catalog, min_x, min_z);
            if v == None then r.Ok? else r == Err(v.value)
  {
    assert ps[i] in ps;
    FoldNext(ps, i, catalog, min_x, min_z);
    FoldDecides(ps[..i], catalog, min_x, min_z);
    StepIsVerdict(Fold(ps[..i], catalog, min_x, min_z).value, ps, i, catalog, min_x, min_z);
  }

  // Up to the first bad verdict the fold succeeds, and there it stops.
  lemma FoldIsVerdicts(ps: seq<Placement>, catalog: Catalog, min_x: int, min_z: int) returns (i: nat)
    requires AllWhole(ps) && AllIntegers(ps)
    ensures i <= |ps| && Passed(ps, i, catalog, min_x, min_z)
    ensures i == |ps| ==> Fold(ps, catalog, min_x, min_z).Ok?
    ensures i < |ps| ==> Verdict(ps, i, catalog, min_x, min_z).Some?
                         && Fold(ps, catalog, min_x, min_z) == Err(Verdict(ps, i, catalog, min_x, min_z).value)
  {
    i := 0;
    assert ps[..0] == [];
    while i < |ps| && Verdict(ps, i, catalog, min_x, min_z) == None
      invariant i <= |ps| && Passed(ps, i, catalog, min_x, min_z)
      invariant AllIntegers(ps[..i]) && Fold(ps[..i], catalog, min_x, min_z).Ok?
    {
      WholePrefix(ps, i + 1);
      VerdictNext(ps, i, catalog, min_x, min_z);
      i := i + 1;
    }
    if i < |ps| {
      WholePrefix(ps, i + 1);
      VerdictNext(ps, i, catalog, min_x, min_z);
      FoldStops(ps, i + 1, catalog, min_x, min_z);
    } else {
      assert ps[..i] == ps;
    }
  }

  ghost predicate Corner(ps: seq<Placement>, min_x: int, min_z: int)
    requires AllWhole(ps)
  {
    && (forall p | p in ps :: p.x.Some? && p.z.Some? && min_x <= p.x.value && min_z <= p.z.value)
    && (exists p :: p in ps && p.x == Some(min_x)) && exists p :: p in ps && p.z == Some(min_z)
  }

  lemma LeastIsCorner(ps: seq<Placement>)
    requires ps != [] && AllWhole(ps)
    ensures Corner(ps, Least(X, ps), Least(Z, ps))
  {
    LeastIsAttained(X, ps);
    LeastIsAttained(Z, ps);
    forall p | p in ps ensures p.x == Some(X(p)) && p.z == Some(Z(p)) && X(p) >= Least(X, ps) && Z(p) >= Least(Z, ps) {
    }
  }

  /** Between 1 and 200 placements of whole numbers are looked at; more, fewer or others are refused at once. */
  lemma RefusedAtOnce(ps: seq<Placement>, catalog: Catalog)
    ensures Outcome(ps, catalog) == Err(PartCount) <==> |ps| == 0 || |ps| > 200
    ensures 1 <= |ps| <= 200 && !AllWhole(ps) ==> Outcome(ps, catalog) == Err(NonInteger)
  {
    if 1 <= |ps| <= 200 && AllWhole(ps) {
      AllIntegersHere(ps);
      var i := FoldIsVerdicts(ps, catalog, Least(X, ps), Least(Z, ps));
    }
    if AllIntegers(ps) {
      assert forall i :: 0 <= i < |ps| ==> ps[i] in ps;
    }
  }

  /**
   The first placement with a bad verdict gives the error; without one every
   placement gets its brick, seen from the least corner of all.
   */
  lemma FirstVerdictDecides(ps: seq<Placement>, catalog: Catalog) returns (i: nat, min_x: int, min_z: int)
    requires 1 <= |ps| <= 200 && AllWhole(ps)
    ensures Corner(ps, min_x, min_z) && i <= |ps| && Passed(ps, i, catalog, min_x, min_z)
    ensures i < |ps| ==> Verdict(ps, i, catalog, min_x, min_z).Some?
                         && Outcome(ps, catalog) == Err(Verdict(ps, i, catalog, min_x, min_z).value)
    ensures i == |ps| ==>
              && Outcome(ps, catalog).Ok? && |Outcome(ps, catalog).value| == |ps|
              && forall k :: 0 <= k < |ps| ==>
                   ps[k].part_id in catalog && Shows(Outcome(ps, catalog).value[k], ps[k], catalog[ps[k].part_id], min_x, min_z)
  {
    min_x, min_z := Least(X, ps), Least(Z, ps);
    LeastIsCorner(ps);
    AllIntegersHere(ps);
    i := FoldIsVerdicts(ps, catalog, min_x, min_z);
    if i == |ps| {
      AcceptedExactlyWhenBuildable(ps, catalog);
      var bs := BricksOf(ps, catalog, min_x, min_z);
      forall k | 0 <= k < |ps| ensures ps[k].part_id in catalog && Shows(bs[k], ps[k], catalog[ps[k].part_id], min_x, min_z) {
        assert ps[k] in ps && Supported(ps[k], catalog);
        BrickShows(ps[k], catalog[ps[k].part_id], min_x, min_z);
      }
    }
  }
}
