/** Turning placements into bricks of the 20x20x20 grid. */
module Bricks {
  import opened Wrappers
  import opened Sequences

  // Numbers are absent where the input holds something other than an integer.
  datatype Placement = Placement(id: Option<string>, part_id: string, x: Option<int>, y: Option<int>, z: Option<int>,
                                 rotation: Option<int>, step: Option<int>)

  datatype Part = Part(geometry_profile: string, plates_y: int, certification_level: string, studs_x: int, studs_z: int)

  datatype Brick = Brick(h: int, w: int, x: int, y: int, z: int)

  datatype Error = PartCount | NonInteger | InvalidId | Transform | UnsupportedPart | Dimension | Grid | Collision

  type Cell = (int, int, int)
  type Catalog = map<string, Part>

  const GRID := 20
  const MAX_PARTS := 200
  const SIZES: set<(int, int)> := {(1, 1), (1, 2), (1, 4), (1, 6), (1, 8), (2, 2), (2, 4), (2, 6)}

  predicate Integers(p: Placement) {
    p.x.Some? && p.y.Some? && p.z.Some? && p.rotation.Some? && p.step.Some?
  }

  predicate AllIntegers(ps: seq<Placement>) {
    forall p | p in ps :: Integers(p)
  }

  // ---- One placement ----

  predicate HasId(p: Placement) {
    p.id.Some? && p.id.value != ""
  }

  predicate Upright(p: Placement)
    requires Integers(p)
  {
    p.rotation.value % 90 == 0 && p.y.value >= 0 && p.y.value % 3 == 0 && p.step.value > 0
  }

  predicate Certified(p: Placement, catalog: Catalog) {
    p.part_id in catalog && catalog[p.part_id].geometry_profile == "stud_tube_rect"
    && catalog[p.part_id].plates_y == 3 && catalog[p.part_id].certification_level == "certified"
  }

  // The footprint after rotation: along x and along z.
  function Footprint(p: Placement, part: Part): (int, int)
    requires Integers(p)
  {
    if p.rotation.value % 180 != 0 then (part.studs_z, part.studs_x) else (part.studs_x, part.studs_z)
  }

  predicate Standard(size: (int, int)) {
    (if size.0 <= size.1 then size else (size.1, size.0)) in SIZES
  }

  function BrickOf(p: Placement, part: Part, min_x: int, min_z: int): Brick
    requires Integers(p)
  {
    var (h, w) := Footprint(p, part);
    Brick(h, w, p.x.value - min_x, p.z.value - min_z, p.y.value / 3)
  }

  predicate Fits(b: Brick) {
    b.x + b.h <= GRID && b.y + b.w <= GRID && b.z < GRID
  }

  function Cells(b: Brick): set<Cell> {
    set a, c | b.x <= a < b.x + b.h && b.y <= c < b.y + b.w :: (a, c, b.z)
  }

  // ---- The whole list ----

  datatype Progress = Progress(ids: set<string>, occupied: set<Cell>, bricks: seq<Brick>)

  function Step(s: Progress, p: Placement, catalog: Catalog, min_x: int, min_z: int): Result<Progress, Error>
    requires Integers(p)
  {
    if !HasId(p) || p.id.value in s.ids then Err(InvalidId)
    else if !Upright(p) then Err(Transform)
    else if !Certified(p, catalog) then Err(UnsupportedPart)
    else if !Standard(Footprint(p, catalog[p.part_id])) then Err(Dimension)
    else
      var b := BrickOf(p, catalog[p.part_id], min_x, min_z);
      if !Fits(b) then Err(Grid)
      else if Cells(b) !! s.occupied then Ok(Progress(s.ids + {p.id.value}, s.occupied + Cells(b), s.bricks + [b]))
      else Err(Collision)
  }

  function Fold(ps: seq<Placement>, catalog: Catalog, min_x: int, min_z: int): Result<Progress, Error>
    requires AllIntegers(ps)
  {
    if ps == [] then Ok(Progress({}, {}, []))
    else
      match Fold(ps[..|ps| - 1], catalog, min_x, min_z)
      case Err(e) => Err(e)
      case Ok(s) => assert ps[|ps| - 1] in ps; Step(s, ps[|ps| - 1], catalog, min_x, min_z)
  }

  function X(p: Placement): int {
    p.x.GetOr(0)
  }

  function Z(p: Placement): int {
    p.z.GetOr(0)
  }

  function Least(f: Placement -> int, ps: seq<Placement>): int
    requires ps != []
  {
    if |ps| == 1 then f(ps[0])
    else
      var m := Least(f, ps[..|ps| - 1]);
      if f(ps[|ps| - 1]) < m then f(ps[|ps| - 1]) else m
  }

  lemma {:induction false} LeastIsAttained(f: Placement -> int, ps: seq<Placement>)
    requires ps != []
    ensures forall p | p in ps :: Least(f, ps) <= f(p)
    ensures exists p :: p in ps && f(p) == Least(f, ps)
  {
    if |ps| == 1 {
      assert ps[0] in ps;
    } else {
      InitLast(ps);
      LeastIsAttained(f, ps[..|ps| - 1]);
    }
  }

  function Outcome(ps: seq<Placement>, catalog: Catalog): Result<seq<Brick>, Error> {
    if ps == [] || |ps| > MAX_PARTS then Err(PartCount)
    else if !AllIntegers(ps) then Err(NonInteger)
    else
      match Fold(ps, catalog, Least(X, ps), Least(Z, ps))
      case Err(e) => Err(e)
      case Ok(s) => Ok(s.bricks)
  }

  // The cells of the columns from the brick's first up to column a, and of column a up to row c.
  function CellsUpTo(b: Brick, a: int, c: int): set<Cell> {
    set i, j | b.x <= i < b.x + b.h && b.y <= j < b.y + b.w && (i < a || (i == a && j < c)) :: (i, j, b.z)
  }

  lemma CellsNext(b: Brick, a: int, c: int)
    requires b.x <= a < b.x + b.h && b.y <= c < b.y + b.w
    ensures CellsUpTo(b, a, c + 1) == CellsUpTo(b, a, c) + {(a, c, b.z)}
  {
  }

  method Occupy(occupied: set<Cell>, b: Brick) returns (r: Option<set<Cell>>)
    requires b.h > 0 && b.w > 0
    ensures r == if Cells(b) !! occupied then Some(occupied + Cells(b)) else None
  {
    var now := occupied;
    for a := b.x to b.x + b.h
      invariant CellsUpTo(b, a, b.y) !! occupied && now == occupied + CellsUpTo(b, a, b.y)
    {
      for c := b.y to b.y + b.w
        invariant CellsUpTo(b, a, c) !! occupied && now == occupied + CellsUpTo(b, a, c)
      {
        CellsNext(b, a, c);
        assert (a, c, b.z) !in CellsUpTo(b, a, c);
        assert (a, c, b.z) in Cells(b);
        if (a, c, b.z) in now {
          return None;
        }
        now := now + {(a, c, b.z)};
      }
      assert CellsUpTo(b, a, b.y + b.w) == CellsUpTo(b, a + 1, b.y);
    }
    assert CellsUpTo(b, b.x + b.h, b.y) == Cells(b);
    r := Some(now);
  }

  method Place(s: Progress, p: Placement, catalog: Catalog, min_x: int, min_z: int) returns (r: Result<Progress, Error>)
    requires Integers(p)
    ensures r == Step(s, p, catalog, min_x, min_z)
  {
    if !HasId(p) || p.id.value in s.ids {
      return Err(InvalidId);
    }
    if p.rotation.value % 90 != 0 || p.y.value < 0 || p.y.value % 3 != 0 || p.step.value <= 0 {
      return Err(Transform);
    }
    if !Certified(p, catalog) {
      return Err(UnsupportedPart);
    }
    var part := catalog[p.part_id];
    var h, w := part.studs_x, part.studs_z;
    if p.rotation.value % 180 != 0 {
      h, w := w, h;
    }
    if !Standard((h, w)) {
      return Err(Dimension);
    }
    var brick := Brick(h, w, p.x.value - min_x, p.z.value - min_z, p.y.value / 3);
    if brick.x + h > GRID || brick.y + w > GRID || brick.z >= GRID {
      return Err(Grid);
    }
    var occupied := Occupy(s.occupied, brick);
    if occupied.None? {
      return Err(Collision);
    }
    r := Ok(Progress(s.ids + {p.id.value}, occupied.value, s.bricks + [brick]));
  }

  lemma {:induction false} FoldStops(ps: seq<Placement>, i: nat, catalog: Catalog, min_x: int, min_z: int)
    requires AllIntegers(ps) && i <= |ps|
    ensures Fold(ps[..i], catalog, min_x, min_z).Err? ==> Fold(ps, catalog, min_x, min_z) == Fold(ps[..i], catalog, min_x, min_z)
  {
    if i == |ps| {
      assert ps[..i] == ps;
    } else {
      FoldStops(ps[..|ps| - 1], i, catalog, min_x, min_z);
      assert ps[..|ps| - 1][..i] == ps[..i];
    }
  }

  lemma FoldNext(ps: seq<Placement>, i: nat, catalog: Catalog, min_x: int, min_z: int)
    requires AllIntegers(ps) && i < |ps| && ps[i] in ps && Fold(ps[..i], catalog, min_x, min_z).Ok?
    ensures Fold(ps[..i + 1], catalog, min_x, min_z) == Step(Fold(ps[..i], catalog, min_x, min_z).value, ps[i], catalog, min_x, min_z)
    ensures Fold(ps[..i + 1], catalog, min_x, min_z).Err? ==> Fold(ps, catalog, min_x, min_z) == Fold(ps[..i + 1], catalog, min_x, min_z)
  {
    assert ps[..i + 1][..i] == ps[..i];
    FoldStops(ps, i + 1, catalog, min_x, min_z);
  }

  method AsBricks(ps: seq<Placement>, catalog: Catalog) returns (r: Result<seq<Brick>, Error>)
    ensures r == Outcome(ps, catalog)
  {
    if |ps| == 0 || |ps| > MAX_PARTS {
      return Err(PartCount);
    }
    if !AllIntegers(ps) {
      return Err(NonInteger);
    }
    var min_x, min_z := Least(X, ps), Least(Z, ps);
    var s := Progress({}, {}, []);
    for i := 0 to |ps|
      invariant Fold(ps[..i], catalog, min_x, min_z) == Ok(s)
    {
      FoldNext(ps, i, catalog, min_x, min_z);
      assert ps[i] in ps;
      var next := Place(s, ps[i], catalog, min_x, min_z);
      if next.Err? {
        return Err(next.error);
      }
      s := next.value;
    }
    assert ps[..|ps|] == ps;
    r := Ok(s.bricks);
  }

  // ---- What is accepted ----

  predicate Overlap(a: Brick, b: Brick) {
    && a.z == b.z
    && a.x < b.x + b.h && b.x < a.x + a.h
    && a.y < b.y + b.w && b.y < a.y + a.w
  }

  predicate Solid(b: Brick) {
    b.h > 0 && b.w > 0
  }

  /** Two bricks share a cell exactly when their boxes overlap. */
  lemma SharedCellsExactly(a: Brick, b: Brick)
    requires Solid(a) && Solid(b)
    ensures Cells(a) !! Cells(b) <==> !Overlap(a, b)
  {
    if Overlap(a, b) {
      var cell := (if a.x < b.x then b.x else a.x, if a.y < b.y then b.y else a.y, a.z);
      assert cell in Cells(a) && cell in Cells(b);
    }
  }

  predicate Supported(p: Placement, catalog: Catalog)
    requires Integers(p)
  {
    HasId(p) && Upright(p) && Certified(p, catalog) && Standard(Footprint(p, catalog[p.part_id]))
  }

  function Id(p: Placement): string {
    p.id.GetOr("")
  }

  ghost predicate AllSupported(ps: seq<Placement>, catalog: Catalog)
    requires AllIntegers(ps)
  {
    forall p | p in ps :: Supported(p, catalog)
  }

  function BricksOf(ps: seq<Placement>, catalog: Catalog, min_x: int, min_z: int): (r: seq<Brick>)
    requires AllIntegers(ps) && AllSupported(ps, catalog)
    ensures |r| == |ps|
    ensures forall i | 0 <= i < |ps| :: ps[i] in ps && r[i] == BrickOf(ps[i], catalog[ps[i].part_id], min_x, min_z)
  {
    if ps == [] then []
    else
      assert ps[|ps| - 1] in ps;
      BricksOf(ps[..|ps| - 1], catalog, min_x, min_z) + [BrickOf(ps[|ps| - 1], catalog[ps[|ps| - 1].part_id], min_x, min_z)]
  }

  predicate AllFit(bs: seq<Brick>) {
    forall b | b in bs :: Fits(b)
  }

  predicate Clear(b: Brick, bs: seq<Brick>) {
    forall c | c in bs :: !Overlap(c, b)
  }

  predicate Apart(bs: seq<Brick>) {
    bs == [] || (Apart(bs[..|bs| - 1]) && Clear(bs[|bs| - 1], bs[..|bs| - 1]))
  }

  lemma {:induction false} ApartAt(bs: seq<Brick>)
    ensures Apart(bs) <==> forall i, j | 0 <= i < j < |bs| :: !Overlap(bs[i], bs[j])
  {
    if bs != [] {
      var init, last := bs[..|bs| - 1], bs[|bs| - 1];
      ApartAt(init);
      if Apart(bs) {
        forall i, j | 0 <= i < j < |bs| ensures !Overlap(bs[i], bs[j]) {
          if j == |bs| - 1 {
            assert bs[i] in init;
          } else {
            assert init[i] == bs[i] && init[j] == bs[j];
          }
        }
      }
      if forall i, j | 0 <= i < j < |bs| :: !Overlap(bs[i], bs[j]) {
        forall i, j | 0 <= i < j < |init| ensures !Overlap(init[i], init[j]) {
          assert !Overlap(bs[i], bs[j]);
        }
        forall c | c in init ensures !Overlap(c, last) {
          var i :| 0 <= i < |init| && init[i] == c;
          assert !Overlap(bs[i], bs[|bs| - 1]);
        }
      }
    }
  }

  function Taken(bs: seq<Brick>): set<Cell> {
    if bs == [] then {} else Taken(bs[..|bs| - 1]) + Cells(bs[|bs| - 1])
  }

  lemma {:induction false} ClearOfTaken(bs: seq<Brick>, b: Brick)
    requires Solid(b) && forall c | c in bs :: Solid(c)
    ensures Cells(b) !! Taken(bs) <==> Clear(b, bs)
  {
    if bs != [] {
      var init, last := bs[..|bs| - 1], bs[|bs| - 1];
      InitLast(bs);
      ClearOfTaken(init, b);
      SharedCellsExactly(last, b);
    }
  }

  ghost predicate Placeable(ps: seq<Placement>, catalog: Catalog, min_x: int, min_z: int)
    requires AllIntegers(ps)
  {
    && AllSupported(ps, catalog) && NoDup(Map(Id, ps))
    && AllFit(BricksOf(ps, catalog, min_x, min_z)) && Apart(BricksOf(ps, catalog, min_x, min_z))
  }

  lemma StandardIsSolid(p: Placement, part: Part, min_x: int, min_z: int)
    requires Integers(p) && Standard(Footprint(p, part))
    ensures Solid(BrickOf(p, part, min_x, min_z))
  {
  }

  lemma {:induction false} BricksSolid(ps: seq<Placement>, catalog: Catalog, min_x: int, min_z: int)
    requires AllIntegers(ps) && AllSupported(ps, catalog)
    ensures forall b | b in BricksOf(ps, catalog, min_x, min_z) :: Solid(b)
  {
    var bs := BricksOf(ps, catalog, min_x, min_z);
    forall i | 0 <= i < |bs| ensures Solid(bs[i]) {
      assert ps[i] in ps;
      StandardIsSolid(ps[i], catalog[ps[i].part_id], min_x, min_z);
    }
  }

  // How far the fold has come over placements that can all be placed.
  ghost predicate Reached(s: Progress, ps: seq<Placement>, catalog: Catalog, min_x: int, min_z: int)
    requires AllIntegers(ps) && AllSupported(ps, catalog)
  {
    && s.ids == Elements(Map(Id, ps)) && s.bricks == BricksOf(ps, catalog, min_x, min_z)
    && s.occupied == Taken(BricksOf(ps, catalog, min_x, min_z))
  }

  lemma PlaceableAppend(ps: seq<Placement>, p: Placement, catalog: Catalog, min_x: int, min_z: int)
    requires AllIntegers(ps + [p])
    ensures AllIntegers(ps) && Integers(p)
    ensures AllSupported(ps + [p], catalog) <==> AllSupported(ps, catalog) && Supported(p, catalog)
    ensures NoDup(Map(Id, ps + [p])) <==> NoDup(Map(Id, ps)) && Id(p) !in Elements(Map(Id, ps))
    ensures Elements(Map(Id, ps + [p])) == Elements(Map(Id, ps)) + {Id(p)}
  {
    assert p in ps + [p];
    assert forall x :: x in ps + [p] <==> x in ps || x == p;
    assert Map(Id, ps + [p]) == Map(Id, ps) + [Id(p)];
    NoDupOne(Map(Id, ps), Id(p));
    ElementsConcat(Map(Id, ps), [Id(p)]);
  }

  lemma BricksAppend(ps: seq<Placement>, p: Placement, catalog: Catalog, min_x: int, min_z: int)
    requires AllIntegers(ps + [p]) && AllSupported(ps + [p], catalog) && AllIntegers(ps) && AllSupported(ps, catalog) && Integers(p)
    requires Supported(p, catalog)
    ensures BricksOf(ps + [p], catalog, min_x, min_z)
         == BricksOf(ps, catalog, min_x, min_z) + [BrickOf(p, catalog[p.part_id], min_x, min_z)]
  {
    assert (ps + [p])[..|ps|] == ps;
  }

  lemma BoxAppend(bs: seq<Brick>, b: Brick)
    requires Solid(b) && forall c | c in bs :: Solid(c)
    ensures AllFit(bs + [b]) && Apart(bs + [b]) <==> AllFit(bs) && Apart(bs) && Fits(b) && Cells(b) !! Taken(bs)
    ensures Taken(bs + [b]) == Taken(bs) + Cells(b)
  {
    assert (bs + [b])[..|bs|] == bs;
    assert forall c :: c in bs + [b] <==> c in bs || c == b;
    ClearOfTaken(bs, b);
  }

  lemma StepDecides(s: Progress, ps: seq<Placement>, p: Placement, catalog: Catalog, min_x: int, min_z: int)
    requires AllIntegers(ps + [p]) && AllIntegers(ps) && Integers(p)
    requires Placeable(ps, catalog, min_x, min_z) && Reached(s, ps, catalog, min_x, min_z)
    ensures Step(s, p, catalog, min_x, min_z).Ok? <==> Placeable(ps + [p], catalog, min_x, min_z)
    ensures Step(s, p, catalog, min_x, min_z).Ok? ==> Reached(Step(s, p, catalog, min_x, min_z).value, ps + [p], catalog, min_x, min_z)
  {
    PlaceableAppend(ps, p, catalog, min_x, min_z);
    if Supported(p, catalog) {
      BricksAppend(ps, p, catalog, min_x, min_z);
      BricksSolid(ps, catalog, min_x, min_z);
      StandardIsSolid(p, catalog[p.part_id], min_x, min_z);
      BoxAppend(BricksOf(ps, catalog, min_x, min_z), BrickOf(p, catalog[p.part_id], min_x, min_z));
    }
  }

  lemma {:induction false} FoldDecides(ps: seq<Placement>, catalog: Catalog, min_x: int, min_z: int)
    requires AllIntegers(ps)
    ensures Fold(ps, catalog, min_x, min_z).Ok? <==> Placeable(ps, catalog, min_x, min_z)
    ensures Fold(ps, catalog, min_x, min_z).Ok? ==> Reached(Fold(ps, catalog, min_x, min_z).value, ps, catalog, min_x, min_z)
  {
    if ps != [] {
      var init, last := ps[..|ps| - 1], ps[|ps| - 1];
      assert ps == init + [last];
      FoldDecides(init, catalog, min_x, min_z);
      if Placeable(init, catalog, min_x, min_z) {
        StepDecides(Fold(init, catalog, min_x, min_z).value, init, last, catalog, min_x, min_z);
      } else {
        NotPlaceable(init, last, catalog, min_x, min_z);
      }
    }
  }

  lemma NotPlaceable(ps: seq<Placement>, p: Placement, catalog: Catalog, min_x: int, min_z: int)
    requires AllIntegers(ps + [p]) && AllIntegers(ps) && !Placeable(ps, catalog, min_x, min_z)
    ensures !Placeable(ps + [p], catalog, min_x, min_z)
  {
    PlaceableAppend(ps, p, catalog, min_x, min_z);
    if AllSupported(ps + [p], catalog) {
      BricksAppend(ps, p, catalog, min_x, min_z);
      BricksSolid(ps, catalog, min_x, min_z);
      StandardIsSolid(p, catalog[p.part_id], min_x, min_z);
      BoxAppend(BricksOf(ps, catalog, min_x, min_z), BrickOf(p, catalog[p.part_id], min_x, min_z));
    }
  }

  // The part's box: its footprint, three plates high.
  predicate PartsOverlap(p: Placement, q: Placement, a: Part, b: Part)
    requires Integers(p) && Integers(q)
  {
    var (pw, pd) := Footprint(p, a);
    var (qw, qd) := Footprint(q, b);
    && p.x.value < q.x.value + qw && q.x.value < p.x.value + pw
    && p.y.value < q.y.value + 3 && q.y.value < p.y.value + 3
    && p.z.value < q.z.value + qd && q.z.value < p.z.value + pd
  }

  lemma LayersExactly(a: int, b: int)
    requires a % 3 == 0 && b % 3 == 0
    ensures a / 3 == b / 3 <==> a < b + 3 && b < a + 3
    ensures 3 * (a / 3) == a
  {
  }

  /** Bricks overlap exactly when the parts they stand for do, wherever the origin is put. */
  lemma OverlapIsGeometric(p: Placement, q: Placement, a: Part, b: Part, min_x: int, min_z: int)
    requires Integers(p) && Integers(q) && Upright(p) && Upright(q)
    ensures Overlap(BrickOf(p, a, min_x, min_z), BrickOf(q, b, min_x, min_z)) <==> PartsOverlap(p, q, a, b)
  {
    LayersExactly(p.y.value, q.y.value);
  }

  // The box lies inside the grid, on all six sides.
  predicate InGrid(b: Brick) {
    0 <= b.x && b.x + b.h <= GRID && 0 <= b.y && b.y + b.w <= GRID && 0 <= b.z < GRID
  }

  ghost predicate NoneOverlap(ps: seq<Placement>, catalog: Catalog)
    requires AllIntegers(ps) && AllSupported(ps, catalog)
  {
    forall i, j | 0 <= i < j < |ps| ::
      ps[i] in ps && ps[j] in ps && !PartsOverlap(ps[i], ps[j], catalog[ps[i].part_id], catalog[ps[j].part_id])
  }

  // Supported parts, different ids, boxes inside the grid, no two parts overlapping.
  ghost predicate Buildable(ps: seq<Placement>, catalog: Catalog) {
    && 1 <= |ps| <= MAX_PARTS && AllIntegers(ps) && AllSupported(ps, catalog)
    && (forall i, j | 0 <= i < j < |ps| :: Id(ps[i]) != Id(ps[j]))
    && (forall b | b in BricksOf(ps, catalog, Least(X, ps), Least(Z, ps)) :: InGrid(b))
    && NoneOverlap(ps, catalog)
  }

  lemma ApartIsNoneOverlap(ps: seq<Placement>, catalog: Catalog, min_x: int, min_z: int)
    requires AllIntegers(ps) && AllSupported(ps, catalog)
    ensures Apart(BricksOf(ps, catalog, min_x, min_z)) <==> NoneOverlap(ps, catalog)
  {
    var bs := BricksOf(ps, catalog, min_x, min_z);
    ApartAt(bs);
    forall i, j | 0 <= i < j < |ps|
      ensures ps[i] in ps && ps[j] in ps
      ensures Overlap(bs[i], bs[j]) <==> PartsOverlap(ps[i], ps[j], catalog[ps[i].part_id], catalog[ps[j].part_id])
    {
      assert ps[i] in ps && ps[j] in ps;
      assert Upright(ps[i]) && Upright(ps[j]);
      OverlapIsGeometric(ps[i], ps[j], catalog[ps[i].part_id], catalog[ps[j].part_id], min_x, min_z);
    }
  }

  lemma DistinctIds(ps: seq<Placement>)
    ensures NoDup(Map(Id, ps)) <==> forall i, j | 0 <= i < j < |ps| :: Id(ps[i]) != Id(ps[j])
  {
    if NoDup(Map(Id, ps)) {
      forall i, j | 0 <= i < j < |ps| ensures Id(ps[i]) != Id(ps[j]) {
        NoDupAt(Map(Id, ps), i, j);
      }
    } else {
      var i, j := Repetition(Map(Id, ps));
      assert Id(ps[i]) == Id(ps[j]);
    }
  }

  lemma BricksFromOrigin(ps: seq<Placement>, catalog: Catalog)
    requires ps != [] && AllIntegers(ps) && AllSupported(ps, catalog)
    ensures forall b | b in BricksOf(ps, catalog, Least(X, ps), Least(Z, ps)) :: 0 <= b.x && 0 <= b.y && 0 <= b.z
  {
    LeastIsAttained(X, ps);
    LeastIsAttained(Z, ps);
    var bs := BricksOf(ps, catalog, Least(X, ps), Least(Z, ps));
    forall i | 0 <= i < |bs| ensures 0 <= bs[i].x && 0 <= bs[i].y && 0 <= bs[i].z {
      assert ps[i] in ps;
      assert X(ps[i]) >= Least(X, ps) && Z(ps[i]) >= Least(Z, ps) && Upright(ps[i]);
    }
  }

  lemma FitIsInGrid(ps: seq<Placement>, catalog: Catalog)
    requires ps != [] && AllIntegers(ps) && AllSupported(ps, catalog)
    ensures AllFit(BricksOf(ps, catalog, Least(X, ps), Least(Z, ps))) <==>
            forall b | b in BricksOf(ps, catalog, Least(X, ps), Least(Z, ps)) :: InGrid(b)
  {
    BricksFromOrigin(ps, catalog);
  }

  lemma PlaceableIsBuildable(ps: seq<Placement>, catalog: Catalog)
    requires 1 <= |ps| <= MAX_PARTS && AllIntegers(ps)
    ensures Placeable(ps, catalog, Least(X, ps), Least(Z, ps)) <==> Buildable(ps, catalog)
  {
    DistinctIds(ps);
    if AllSupported(ps, catalog) {
      FitIsInGrid(ps, catalog);
      ApartIsNoneOverlap(ps, catalog, Least(X, ps), Least(Z, ps));
    }
  }

  /** Exactly the buildable lists are accepted, and the result is one brick for each placement, in order. */
  lemma AcceptedExactlyWhenBuildable(ps: seq<Placement>, catalog: Catalog)
    ensures Outcome(ps, catalog).Ok? <==> Buildable(ps, catalog)
    ensures Outcome(ps, catalog).Ok? ==> Outcome(ps, catalog).value == BricksOf(ps, catalog, Least(X, ps), Least(Z, ps))
  {
    if ps != [] && |ps| <= MAX_PARTS && AllIntegers(ps) {
      FoldDecides(ps, catalog, Least(X, ps), Least(Z, ps));
      PlaceableIsBuildable(ps, catalog);
    }
  }

  /** The bricks have the placements' true sizes and all their relative positions. */
  lemma BricksKeepGeometry(ps: seq<Placement>, catalog: Catalog, i: nat, j: nat)
    requires Outcome(ps, catalog).Ok? && i < |ps| && j < |ps|
    ensures AllIntegers(ps) && AllSupported(ps, catalog) && ps[i] in ps && ps[j] in ps && |Outcome(ps, catalog).value| == |ps|
    ensures var bs := Outcome(ps, catalog).value;
            && (bs[i].h, bs[i].w) == Footprint(ps[i], catalog[ps[i].part_id])
            && bs[i].x - bs[j].x == ps[i].x.value - ps[j].x.value
            && bs[i].y - bs[j].y == ps[i].z.value - ps[j].z.value
            && 3 * (bs[i].z - bs[j].z) == ps[i].y.value - ps[j].y.value
  {
    AcceptedExactlyWhenBuildable(ps, catalog);
    assert ps[i] in ps && ps[j] in ps;
    assert Upright(ps[i]) && Upright(ps[j]);
    LayersExactly(ps[i].y.value, ps[j].y.value);
    LayersExactly(ps[j].y.value, ps[i].y.value);
  }

  /** The horizontal origin is the least corner: some brick touches each of the two near sides. */
  lemma OriginIsTouched(ps: seq<Placement>, catalog: Catalog)
    requires Outcome(ps, catalog).Ok?
    ensures exists b :: b in Outcome(ps, catalog).value && b.x == 0
    ensures exists b :: b in Outcome(ps, catalog).value && b.y == 0
  {
    AcceptedExactlyWhenBuildable(ps, catalog);
    LeastIsAttained(X, ps);
    LeastIsAttained(Z, ps);
    var bs := Outcome(ps, catalog).value;
    var p :| p in ps && X(p) == Least(X, ps);
    var i :| 0 <= i < |ps| && ps[i] == p;
    assert bs[i] in bs && bs[i].x == 0;
    var q :| q in ps && Z(q) == Least(Z, ps);
    var j :| 0 <= j < |ps| && ps[j] == q;
    assert bs[j] in bs && bs[j].y == 0;
  }
}
