/** What a part draws, primitive by primitive, in the terms of its files: codes, points and references. */
module LDrawDrawing {
  import opened Wrappers
  import opened Sequences
  import opened LDrawGeometry
  import opened LDrawSource
  import opened LDrawScene

  // ---- Transforms without their formula ----

  function Plus(p: Vec3, q: Vec3): Vec3 {
    Vec3(p.x + q.x, p.y + q.y, p.z + q.z)
  }

  function Scaled(k: real, p: Vec3): Vec3 {
    Vec3(k * p.x, k * p.y, k * p.z)
  }

  /**
   A point goes along the columns of the matrix by its coordinates, starting from
   the translation.
   */
  lemma PointByColumns(t: Transform, p: Vec3)
    ensures Point(t, p) == Plus(Plus(Plus(Scaled(p.x, Vec3(t.m[0], t.m[3], t.m[6])), Scaled(p.y, Vec3(t.m[1], t.m[4], t.m[7]))),
                                     Scaled(p.z, Vec3(t.m[2], t.m[5], t.m[8]))), t.t)
  {
  }

  // ---- Colours ----

  // The nearest reference with a colour of its own: 16 stands for the inherited one.
  ghost predicate Nearest(chain: seq<Step>, k: int) {
    0 <= k < |chain| && chain[k].color != 16 && forall j :: k < j < |chain| ==> chain[j].color == 16
  }

  ghost predicate AllInherit(chain: seq<Step>) {
    forall j :: 0 <= j < |chain| ==> chain[j].color == 16
  }

  // What a code of its own says: 0x2rrggbb a colour by its digits, anything else an entry of the table.
  ghost predicate Says(code: int, m: Material) {
    if 33554432 <= code <= 50331647 then m.Direct? && m.rgb == code - 33554432 else m == Fixed(code)
  }

  /** Surface 16 and edge 24 take the nearest reference's colour, or that from outside; other codes speak for themselves. */
  ghost predicate Painted(code: int, chain: seq<Step>, outside: Context, m: Material) {
    if code == 16 then
      (AllInherit(chain) ==> m == outside.surface) && forall k | Nearest(chain, k) :: Says(chain[k].color, m)
    else if code == 24 then
      (AllInherit(chain) ==> m == outside.edge) && forall k | Nearest(chain, k) :: m == EdgeFixed(chain[k].color)
    else Says(code, m)
  }

  lemma {:induction false} NothingInherited(chain: seq<Step>, outside: Context)
    requires AllInherit(chain)
    ensures Inherited(chain, outside) == outside
  {
    if chain != [] {
      NothingInherited(chain[..|chain| - 1], outside);
    }
  }

  lemma {:induction false} NearestInherited(chain: seq<Step>, k: int, outside: Context)
    requires Nearest(chain, k)
    ensures Inherited(chain, outside) == Context(MaterialName(chain[k].color), EdgeMaterialName(chain[k].color))
  {
    NearestInit(chain, k);
    if chain[|chain| - 1].color == 16 {
      NearestInherited(chain[..|chain| - 1], k, outside);
    }
  }

  lemma NearestInit(chain: seq<Step>, k: int)
    requires Nearest(chain, k)
    ensures if chain[|chain| - 1].color == 16 then Nearest(chain[..|chain| - 1], k) else k == |chain| - 1
  {
  }

  lemma MaterialIsPainted(code: int, chain: seq<Step>, outside: Context)
    ensures Painted(code, chain, outside, GeometryMaterial(code, Inherited(chain, outside)))
  {
    if AllInherit(chain) {
      NothingInherited(chain, outside);
    }
    forall k | Nearest(chain, k)
      ensures Inherited(chain, outside) == Context(MaterialName(chain[k].color), EdgeMaterialName(chain[k].color))
    {
      NearestInherited(chain, k, outside);
    }
  }

  // ---- Primitives ----

  // The i-th point of the occurrence, where its path puts it.
  ghost function PlacedPoint(o: Occurrence, matrix: Transform, i: nat): Vec3
    requires i < |o.line.points|
  {
    PlacePoint(o.chain, matrix, o.line.points[i])
  }

  /** A line is drawn by its points in order, a triangle as one, a quadrilateral as its corners 0 1 2 and 0 2 3. */
  ghost predicate Shows(o: Occurrence, d: Drawn, matrix: Transform, outside: Context)
    requires WellFormed(o.line)
  {
    exists m :: Painted(o.line.color, o.chain, outside, m) && ShowsIn(o, d, matrix, m)
  }

  ghost predicate ShowsIn(o: Occurrence, d: Drawn, matrix: Transform, m: Material)
    requires WellFormed(o.line)
  {
    match o.line.kind
    case '2' =>
      d.triangles == [] && d.lines == [RenderLine([PlacedPoint(o, matrix, 0), PlacedPoint(o, matrix, 1)], m, false)]
    case '5' =>
      d.triangles == []
      && d.lines == [RenderLine([PlacedPoint(o, matrix, 0), PlacedPoint(o, matrix, 1),
                                 PlacedPoint(o, matrix, 2), PlacedPoint(o, matrix, 3)], m, true)]
    case '3' =>
      d.lines == []
      && d.triangles == [Triangle(PlacedPoint(o, matrix, 0), PlacedPoint(o, matrix, 1), PlacedPoint(o, matrix, 2), m)]
    case '4' =>
      d.lines == []
      && d.triangles == [Triangle(PlacedPoint(o, matrix, 0), PlacedPoint(o, matrix, 1), PlacedPoint(o, matrix, 2), m),
                         Triangle(PlacedPoint(o, matrix, 0), PlacedPoint(o, matrix, 2), PlacedPoint(o, matrix, 3), m)]
    case _ => d == NOTHING
  }

  lemma PlaceShows(o: Occurrence, matrix: Transform, outside: Context)
    requires WellFormed(o.line)
    ensures Shows(o, Place(o, matrix, outside), matrix, outside)
  {
    var m := GeometryMaterial(o.line.color, Inherited(o.chain, outside));
    MaterialIsPainted(o.line.color, o.chain, outside);
    var ps := PlacePoints(o.chain, matrix, o.line.points);
    if o.line.kind == '2' {
      assert ps == [PlacedPoint(o, matrix, 0), PlacedPoint(o, matrix, 1)];
    } else if o.line.kind == '5' {
      assert ps == [PlacedPoint(o, matrix, 0), PlacedPoint(o, matrix, 1), PlacedPoint(o, matrix, 2), PlacedPoint(o, matrix, 3)];
    }
    assert ShowsIn(o, Place(o, matrix, outside), matrix, m);
  }

  // ---- The drawing ----

  function TrianglesOf(d: Drawn): seq<Triangle> {
    d.triangles
  }

  function LinesOf(d: Drawn): seq<RenderLine> {
    d.lines
  }

  lemma LastJoined(init: seq<Drawn>, last: Drawn)
    ensures Joined(init + [last]).triangles == Joined(init).triangles + last.triangles
    ensures Joined(init + [last]).lines == Joined(init).lines + last.lines
    ensures Map(TrianglesOf, init + [last]) == Map(TrianglesOf, init) + [last.triangles]
    ensures Map(LinesOf, init + [last]) == Map(LinesOf, init) + [last.lines]
  {
    JoinedConcat(init, [last]);
    assert [last][1..] == [] && Joined([last]) == Then(last, NOTHING) == last;
  }

  lemma {:induction false} JoinedIsLaid(ds: seq<Drawn>) returns (triangles: seq<nat>, lines: seq<nat>)
    ensures Laid(Joined(ds).triangles, Map(TrianglesOf, ds), triangles)
    ensures Laid(Joined(ds).lines, Map(LinesOf, ds), lines)
  {
    if ds == [] {
      triangles, lines := [0], [0];
    } else {
      var init, last := ds[..|ds| - 1], ds[|ds| - 1];
      LastApart(ds);
      triangles, lines := JoinedIsLaid(init);
      LastJoined(init, last);
      LaidAppend(Joined(init).triangles, Map(TrianglesOf, init), triangles, last.triangles);
      LaidAppend(Joined(init).lines, Map(LinesOf, init), lines, last.lines);
      triangles := triangles + [|Joined(init).triangles| + |last.triangles|];
      lines := lines + [|Joined(init).lines| + |last.lines|];
    }
  }

  // The drawing shows the scene's primitives one after another, each as its own line says.
  ghost predicate ShowsAll(s: Scene, matrix: Transform, outside: Context, d: Drawn,
                           ds: seq<Drawn>, triangles: seq<nat>, lines: seq<nat>)
    requires Drawable(s)
  {
    var os := Occurrences(s, []);
    && |ds| == |os| && (forall i :: 0 <= i < |os| ==> Shows(os[i], ds[i], matrix, outside))
    && Laid(d.triangles, Map(TrianglesOf, ds), triangles) && Laid(d.lines, Map(LinesOf, ds), lines)
  }

  /**
   Expanding a reference tree draws its primitives in file order, each placed by
   the references that lead to it and painted by the nearest of them that has a
   colour.
   */
  lemma RenderShows(s: Scene, matrix: Transform, outside: Context) returns (ds: seq<Drawn>, triangles: seq<nat>, lines: seq<nat>)
    requires Drawable(s)
    ensures ShowsAll(s, matrix, outside, Render(s, matrix, outside), ds, triangles, lines)
  {
    var os := Occurrences(s, []);
    RenderIsByOccurrence(s, matrix, outside);
    ds := PlaceEach(os, matrix, outside);
    triangles, lines := JoinedIsLaid(ds);
    forall i | 0 <= i < |os| ensures Shows(os[i], ds[i], matrix, outside) {
      PlaceShows(os[i], matrix, outside);
    }
  }

  /** One line by itself, as the expansion appends it. */
  lemma PrimitiveShows(line: ParsedLine, matrix: Transform, outside: Context)
    requires WellFormed(line)
    ensures Shows(Occurrence([], line), Primitive(line.kind, Points(matrix, line.points), GeometryMaterial(line.color, outside)),
                  matrix, outside)
  {
    PlaceShows(Occurrence([], line), matrix, outside);
    assert PlacePoints([], matrix, line.points) == Points(matrix, line.points);
  }

  /** In a part compiled by itself, without any colour on the way, a surface is current and an edge is edge-current. */
  lemma ColoursOfPart(o: Occurrence, d: Drawn, matrix: Transform)
    requires WellFormed(o.line) && AllInherit(o.chain) && Shows(o, d, matrix, Context(Current, EdgeCurrent))
    ensures o.line.color == 16 ==> forall t | t in d.triangles :: t.material == Current
    ensures o.line.color == 24 ==> forall l | l in d.lines :: l.material == EdgeCurrent
  {
  }
}
