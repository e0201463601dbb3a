/**
 What a reference tree draws. A `Scene` is a file with its sub-file references
 expanded; `Render` is the compiler's reading of it, which carries one composed
 matrix and one colour context down the tree. `Occurrences` is the independent
 reading: one entry per primitive and reference path, placed by applying the
 path's transforms one after another to the primitive's own points.
 */
module LDrawScene {
  import opened LDrawGeometry
  import opened LDrawSource

  // ---- Colours ----

  // The material names of the compiler: "current", "edge-current", "fixed-<code>",
  // "edge-fixed-<code>" and "direct-<rrggbb>".
  datatype Material = Current | EdgeCurrent | Fixed(code: int) | EdgeFixed(code: int) | Direct(rgb: nat)

  datatype Context = Context(surface: Material, edge: Material)

  const TOP: Context := Context(Current, EdgeCurrent)

  function MaterialName(color: int): Material {
    if color == 16 then Current
    else if 0x2000000 <= color <= 0x2ffffff then Direct(color % 0x1000000)
    else Fixed(color)
  }

  function EdgeMaterialName(color: int): Material {
    if color == 16 then EdgeCurrent else EdgeFixed(color)
  }

  function ChildMaterial(color: int, parent: Context): Context {
    if color == 16 then parent else Context(MaterialName(color), EdgeMaterialName(color))
  }

  function GeometryMaterial(color: int, parent: Context): Material {
    if color == 16 then parent.surface
    else if color == 24 then parent.edge
    else MaterialName(color)
  }

  // ---- Output ----

  datatype Triangle = Triangle(a: Vec3, b: Vec3, c: Vec3, material: Material)

  datatype RenderLine = RenderLine(points: seq<Vec3>, material: Material, conditional: bool)

  // The two output lists; primitives keep file order within each.
  datatype Drawn = Drawn(triangles: seq<Triangle>, lines: seq<RenderLine>)

  const NOTHING: Drawn := Drawn([], [])

  function Then(a: Drawn, b: Drawn): Drawn {
    Drawn(a.triangles + b.triangles, a.lines + b.lines)
  }

  lemma ThenAssociates(a: Drawn, b: Drawn, c: Drawn)
    ensures Then(Then(a, b), c) == Then(a, Then(b, c))
    ensures Then(NOTHING, a) == a && Then(a, NOTHING) == a
  {
  }

  function Points(t: Transform, points: seq<Vec3>): (r: seq<Vec3>)
    ensures |r| == |points|
  {
    seq(|points|, i requires 0 <= i < |points| => Point(t, points[i]))
  }

  // What one primitive of the given kind draws with already placed points.
  function Primitive(kind: char, p: seq<Vec3>, material: Material): Drawn
    requires kind in "2345" ==> |p| == PointCount(kind)
  {
    match kind
    case '2' => Drawn([], [RenderLine(p, material, false)])
    case '5' => Drawn([], [RenderLine(p, material, true)])
    case '3' => Drawn([Triangle(p[0], p[1], p[2], material)], [])
    case '4' => Drawn([Triangle(p[0], p[1], p[2], material), Triangle(p[0], p[2], p[3], material)], [])
    case _ => NOTHING
  }

  // ---- Scenes and the compiler's reading of them ----

  datatype Scene =
    | End
    | Draw(line: ParsedLine, rest: Scene)
    | Include(path: string, color: int, transform: Transform, child: Scene, rest: Scene)

  predicate Drawable(s: Scene) {
    match s
    case End => true
    case Draw(line, rest) => WellFormed(line) && line.kind != '1' && Drawable(rest)
    case Include(_, _, _, child, rest) => Drawable(child) && Drawable(rest)
  }

  function Render(s: Scene, matrix: Transform, material: Context): Drawn
    requires Drawable(s)
  {
    match s
    case End => NOTHING
    case Draw(line, rest) =>
      Then(Primitive(line.kind, Points(matrix, line.points), GeometryMaterial(line.color, material)),
           Render(rest, matrix, material))
    case Include(_, color, transform, child, rest) =>
      Then(Render(child, Composed(matrix, transform), ChildMaterial(color, material)),
           Render(rest, matrix, material))
  }

  // ---- The reading by occurrences ----

  datatype Step = Step(color: int, transform: Transform)

  // A primitive together with the references that lead to it, outermost first.
  datatype Occurrence = Occurrence(chain: seq<Step>, line: ParsedLine)

  function Occurrences(s: Scene, chain: seq<Step>): (r: seq<Occurrence>)
    requires Drawable(s)
    ensures forall o | o in r :: WellFormed(o.line) && o.line.kind != '1'
  {
    match s
    case End => []
    case Draw(line, rest) => [Occurrence(chain, line)] + Occurrences(rest, chain)
    case Include(_, color, transform, child, rest) =>
      Occurrences(child, chain + [Step(color, transform)]) + Occurrences(rest, chain)
  }

  // The innermost transform is applied first, the outer matrix last.
  function PlacePoint(chain: seq<Step>, matrix: Transform, p: Vec3): Vec3 {
    if chain == [] then Point(matrix, p)
    else PlacePoint(chain[..|chain| - 1], matrix, Point(chain[|chain| - 1].transform, p))
  }

  function PlacePoints(chain: seq<Step>, matrix: Transform, points: seq<Vec3>): (r: seq<Vec3>)
    ensures |r| == |points|
  {
    seq(|points|, i requires 0 <= i < |points| => PlacePoint(chain, matrix, points[i]))
  }

  // The context set by the innermost reference that does not inherit its colour.
  function Inherited(chain: seq<Step>, material: Context): Context {
    if chain == [] then material
    else
      var color := chain[|chain| - 1].color;
      if color == 16 then Inherited(chain[..|chain| - 1], material)
      else Context(MaterialName(color), EdgeMaterialName(color))
  }

  function Place(o: Occurrence, matrix: Transform, material: Context): Drawn
    requires WellFormed(o.line)
  {
    Primitive(o.line.kind, PlacePoints(o.chain, matrix, o.line.points),
              GeometryMaterial(o.line.color, Inherited(o.chain, material)))
  }

  function Joined(ds: seq<Drawn>): Drawn {
    if ds == [] then NOTHING else Then(ds[0], Joined(ds[1..]))
  }

  lemma {:induction false} JoinedConcat(a: seq<Drawn>, b: seq<Drawn>)
    ensures Joined(a + b) == Then(Joined(a), Joined(b))
  {
    if a == [] {
      assert a + b == b;
    } else {
      assert (a + b)[1..] == a[1..] + b;
      JoinedConcat(a[1..], b);
    }
  }

  function PlaceEach(os: seq<Occurrence>, matrix: Transform, material: Context): seq<Drawn>
    requires forall o | o in os :: WellFormed(o.line)
  {
    seq(|os|, i requires 0 <= i < |os| => Place(os[i], matrix, material))
  }

  function PlaceAll(os: seq<Occurrence>, matrix: Transform, material: Context): Drawn
    requires forall o | o in os :: WellFormed(o.line)
  {
    Joined(PlaceEach(os, matrix, material))
  }

  lemma PlaceAllConcat(a: seq<Occurrence>, b: seq<Occurrence>, matrix: Transform, material: Context)
    requires (forall o | o in a :: WellFormed(o.line)) && (forall o | o in b :: WellFormed(o.line))
    ensures forall o | o in a + b :: WellFormed(o.line)
    ensures PlaceAll(a + b, matrix, material) == Then(PlaceAll(a, matrix, material), PlaceAll(b, matrix, material))
  {
    assert PlaceEach(a + b, matrix, material) == PlaceEach(a, matrix, material) + PlaceEach(b, matrix, material);
    JoinedConcat(PlaceEach(a, matrix, material), PlaceEach(b, matrix, material));
  }

  lemma PlaceAllOne(o: Occurrence, matrix: Transform, material: Context)
    requires WellFormed(o.line)
    ensures PlaceAll([o], matrix, material) == Place(o, matrix, material)
  {
    var ds := PlaceEach([o], matrix, material);
    assert ds == [Place(o, matrix, material)] && ds[1..] == [];
    assert Joined(ds) == Then(ds[0], NOTHING) == ds[0];
  }

  /**
   The compiler's reading is the reading by occurrences: in file order, every
   primitive goes through the transforms of its own reference path and takes its
   colour from the nearest reference that sets one.
   */
  lemma RenderIsByOccurrence(s: Scene, matrix: Transform, material: Context)
    requires Drawable(s)
    ensures Render(s, matrix, material) == PlaceAll(Occurrences(s, []), matrix, material)
  {
    RenderUnderChain(s, [], matrix, material, matrix, material);
  }

  lemma {:induction false} RenderUnderChain(s: Scene, chain: seq<Step>, outer: Transform, top: Context,
                                            matrix: Transform, material: Context)
    requires Drawable(s)
    requires forall p :: Point(matrix, p) == PlacePoint(chain, outer, p)
    requires material == Inherited(chain, top)
    ensures Render(s, matrix, material) == PlaceAll(Occurrences(s, chain), outer, top)
  {
    match s
    case End =>
    case Draw(line, rest) =>
      RenderUnderChain(rest, chain, outer, top, matrix, material);
      assert Points(matrix, line.points) == PlacePoints(chain, outer, line.points);
      PlaceAllOne(Occurrence(chain, line), outer, top);
      PlaceAllConcat([Occurrence(chain, line)], Occurrences(rest, chain), outer, top);
    case Include(_, color, transform, child, rest) =>
      var longer := chain + [Step(color, transform)];
      assert longer[..|longer| - 1] == chain;
      forall p ensures Point(Composed(matrix, transform), p) == PlacePoint(longer, outer, p) {
        ComposePoint(matrix, transform, p);
      }
      RenderUnderChain(child, longer, outer, top, Composed(matrix, transform), ChildMaterial(color, material));
      RenderUnderChain(rest, chain, outer, top, matrix, material);
      PlaceAllConcat(Occurrences(child, longer), Occurrences(rest, chain), outer, top);
  }

  // ---- Instancing ----

  function Substitute(material: Material, ctx: Context): Material {
    match material
    case Current => ctx.surface
    case EdgeCurrent => ctx.edge
    case _ => material
  }

  function InstanceTriangle(t: Triangle, matrix: Transform, ctx: Context): Triangle {
    Triangle(Point(matrix, t.a), Point(matrix, t.b), Point(matrix, t.c), Substitute(t.material, ctx))
  }

  function InstanceLine(l: RenderLine, matrix: Transform, ctx: Context): RenderLine {
    RenderLine(Points(matrix, l.points), Substitute(l.material, ctx), l.conditional)
  }

  function Instance(d: Drawn, matrix: Transform, ctx: Context): Drawn {
    Drawn(
      seq(|d.triangles|, i requires 0 <= i < |d.triangles| => InstanceTriangle(d.triangles[i], matrix, ctx)),
      seq(|d.lines|, i requires 0 <= i < |d.lines| => InstanceLine(d.lines[i], matrix, ctx)))
  }

  lemma InstanceThen(a: Drawn, b: Drawn, matrix: Transform, ctx: Context)
    ensures Instance(Then(a, b), matrix, ctx) == Then(Instance(a, matrix, ctx), Instance(b, matrix, ctx))
  {
  }

  /**
   Compiling a part once, at the identity and with the two "current" colours, is
   enough: any placement of it in any context is that result moved by the matrix
   with the two current colours replaced.
   */
  lemma RenderIsInstanced(s: Scene, matrix: Transform, ctx: Context)
    requires Drawable(s)
    ensures Render(s, matrix, ctx) == Instance(Render(s, Identity(), TOP), matrix, ctx)
  {
    forall p ensures Point(matrix, p) == Point(matrix, Point(Identity(), p)) {
      IdentityPoint(p);
    }
    RenderMoves(s, matrix, ctx, Identity(), TOP, matrix, ctx);
  }

  // The matrix acts as the inner transform followed by the outer one.
  ghost predicate ActsAs(matrix: Transform, outer: Transform, inner: Transform) {
    forall p :: Point(matrix, p) == Point(outer, Point(inner, p))
  }

  lemma ActsAsComposed(matrix: Transform, outer: Transform, inner: Transform, child: Transform)
    requires ActsAs(matrix, outer, inner)
    ensures ActsAs(Composed(matrix, child), outer, Composed(inner, child))
  {
    forall p ensures Point(Composed(matrix, child), p) == Point(outer, Point(Composed(inner, child), p)) {
      ComposePoint(matrix, child, p);
      ComposePoint(inner, child, p);
    }
  }

  lemma PrimitiveMoves(line: ParsedLine, outer: Transform, ctx: Context, inner: Transform, material: Context,
                       matrix: Transform, moved: Context)
    requires WellFormed(line) && line.kind != '1'
    requires ActsAs(matrix, outer, inner)
    requires moved == Context(Substitute(material.surface, ctx), Substitute(material.edge, ctx))
    ensures Primitive(line.kind, Points(matrix, line.points), GeometryMaterial(line.color, moved))
         == Instance(Primitive(line.kind, Points(inner, line.points), GeometryMaterial(line.color, material)), outer, ctx)
  {
    assert GeometryMaterial(line.color, moved) == Substitute(GeometryMaterial(line.color, material), ctx);
    assert Points(matrix, line.points) == Points(outer, Points(inner, line.points));
  }

  // Equal readings through two paths: under `inner` first and the instance after, or under `matrix` at once.
  lemma {:induction false} RenderMoves(s: Scene, outer: Transform, ctx: Context,
                                       inner: Transform, material: Context, matrix: Transform, moved: Context)
    requires Drawable(s)
    requires ActsAs(matrix, outer, inner)
    requires moved == Context(Substitute(material.surface, ctx), Substitute(material.edge, ctx))
    ensures Render(s, matrix, moved) == Instance(Render(s, inner, material), outer, ctx)
  {
    match s
    case End =>
    case Draw(line, rest) =>
      RenderMoves(rest, outer, ctx, inner, material, matrix, moved);
      PrimitiveMoves(line, outer, ctx, inner, material, matrix, moved);
      InstanceThen(Primitive(line.kind, Points(inner, line.points), GeometryMaterial(line.color, material)),
                   Render(rest, inner, material), outer, ctx);
    case Include(_, color, transform, child, rest) =>
      ActsAsComposed(matrix, outer, inner, transform);
      RenderMoves(child, outer, ctx, Composed(inner, transform), ChildMaterial(color, material),
                  Composed(matrix, transform), ChildMaterial(color, moved));
      RenderMoves(rest, outer, ctx, inner, material, matrix, moved);
      InstanceThen(Render(child, Composed(inner, transform), ChildMaterial(color, material)),
                   Render(rest, inner, material), outer, ctx);
  }
}
