/** What a mesh says of each face: its three corners in order, and its normal, up to the sixth digit. */
module GlbFaces {
  import opened Wrappers
  import opened Sequences
  import opened LDrawGeometry
  import opened LDrawScene
  import opened GlbBytes
  import opened GlbMesh

  // ---- Vertices ----

  // Vertex i of the two attributes is this one.
  ghost predicate VertexAt(positions: seq<Word>, normals: seq<Word>, i: nat, v: Corner, num: Numeric) {
    && 3 * i + 2 < |positions| && 3 * i + 2 < |normals|
    && positions[3 * i] == num.bits(v.p.x) && positions[3 * i + 1] == num.bits(v.p.y) && positions[3 * i + 2] == num.bits(v.p.z)
    && normals[3 * i] == num.bits(v.n.x) && normals[3 * i + 1] == num.bits(v.n.y) && normals[3 * i + 2] == num.bits(v.n.z)
  }

  ghost predicate Vertices(positions: seq<Word>, normals: seq<Word>, vs: seq<Corner>, num: Numeric) {
    && |positions| == 3 * |vs| && |normals| == 3 * |vs|
    && forall i :: 0 <= i < |vs| ==> VertexAt(positions, normals, i, vs[i], num)
  }

  ghost predicate SameDigits(p: Vec3, q: Vec3, num: Numeric) {
    num.digits(p.x) == num.digits(q.x) && num.digits(p.y) == num.digits(q.y) && num.digits(p.z) == num.digits(q.z)
  }

  // ---- Faces ----

  // The index leads to a vertex at this point, with this normal.
  ghost predicate LeadsTo(w: Word, vs: seq<Corner>, p: Vec3, n: Vec3, num: Numeric) {
    Value(w) < |vs| && SameDigits(vs[Value(w)].p, p, num) && SameDigits(vs[Value(w)].n, n, num)
  }

  /** Indices 3t, 3t + 1 and 3t + 2 lead to the corners a, b and c of the face, each with the face's normal. */
  ghost predicate FaceAt(indices: seq<Word>, vs: seq<Corner>, t: nat, face: Triangle, num: Numeric) {
    var n := num.normal(face.a, face.b, face.c);
    && 3 * t + 2 < |indices|
    && LeadsTo(indices[3 * t], vs, face.a, n, num)
    && LeadsTo(indices[3 * t + 1], vs, face.b, n, num)
    && LeadsTo(indices[3 * t + 2], vs, face.c, n, num)
  }

  ghost predicate Faces(indices: seq<Word>, vs: seq<Corner>, ts: seq<Triangle>, num: Numeric) {
    |indices| == 3 * |ts| && forall t :: 0 <= t < |ts| ==> FaceAt(indices, vs, t, ts[t], num)
  }

  lemma {:induction false} WordsAt(ps: seq<Vec3>, num: Numeric, i: nat)
    requires i < |ps|
    ensures var w := Words(ps, num);
            w[3 * i] == num.bits(ps[i].x) && w[3 * i + 1] == num.bits(ps[i].y) && w[3 * i + 2] == num.bits(ps[i].z)
  {
    if i < |ps| - 1 {
      WordsAt(ps[..|ps| - 1], num, i);
    }
  }

  lemma StoredVertices(vs: seq<Corner>, num: Numeric)
    ensures Vertices(Words(PositionsOf(vs), num), Words(NormalsOf(vs), num), vs, num)
  {
    forall i | 0 <= i < |vs| ensures VertexAt(Words(PositionsOf(vs), num), Words(NormalsOf(vs), num), i, vs[i], num) {
      WordsAt(PositionsOf(vs), num, i);
      WordsAt(NormalsOf(vs), num, i);
    }
  }

  lemma {:induction false} CornersAt(ts: seq<Triangle>, t: nat, num: Numeric)
    requires t < |ts|
    ensures var n, cs := num.normal(ts[t].a, ts[t].b, ts[t].c), Corners(ts, num);
            cs[3 * t] == Corner(ts[t].a, n) && cs[3 * t + 1] == Corner(ts[t].b, n) && cs[3 * t + 2] == Corner(ts[t].c, n)
  {
    if t < |ts| - 1 {
      CornersAt(ts[..|ts| - 1], t, num);
    }
  }

  lemma RecoveredLeads(indices: seq<Word>, cs: seq<Corner>, i: nat, num: Numeric)
    requires Recovers(indices, cs, num) && i < |cs|
    ensures LeadsTo(indices[i], Stored(cs, num), cs[i].p, cs[i].n, num)
  {
  }

  /** Indices that recover every key show every face. */
  lemma RecoveredFaces(indices: seq<Word>, ts: seq<Triangle>, num: Numeric)
    requires Recovers(indices, Corners(ts, num), num)
    ensures Faces(indices, Stored(Corners(ts, num), num), ts, num)
  {
    forall t | 0 <= t < |ts| ensures FaceAt(indices, Stored(Corners(ts, num), num), t, ts[t], num) {
      CornersAt(ts, t, num);
      RecoveredLeads(indices, Corners(ts, num), 3 * t, num);
      RecoveredLeads(indices, Corners(ts, num), 3 * t + 1, num);
      RecoveredLeads(indices, Corners(ts, num), 3 * t + 2, num);
    }
  }

  // ---- Extents ----

  ghost predicate Bound(lo: real, hi: real, xs: seq<real>) {
    (forall x | x in xs :: lo <= x <= hi) && lo in xs && hi in xs
  }

  // Three numbers each: the least and greatest x, y and z of the points.
  ghost predicate Bounds(min: seq<real>, max: seq<real>, ps: seq<Vec3>) {
    && |min| == 3 && |max| == 3
    && Bound(min[0], max[0], seq(|ps|, i requires 0 <= i < |ps| => ps[i].x))
    && Bound(min[1], max[1], seq(|ps|, i requires 0 <= i < |ps| => ps[i].y))
    && Bound(min[2], max[2], seq(|ps|, i requires 0 <= i < |ps| => ps[i].z))
  }

  lemma SpansIsBounds(min: seq<real>, max: seq<real>, vs: seq<Corner>)
    requires Spans(min, max, vs) && vs != []
    ensures Bounds(min, max, PositionsOf(vs))
  {
    var b :| TightBox(b, vs) && min == Minimum(b) && max == Maximum(b);
    var ps := PositionsOf(vs);
    assert Xs(vs) == seq(|ps|, i requires 0 <= i < |ps| => ps[i].x);
    assert Ys(vs) == seq(|ps|, i requires 0 <= i < |ps| => ps[i].y);
    assert Zs(vs) == seq(|ps|, i requires 0 <= i < |ps| => ps[i].z);
  }

  /** The mesh of a list of triangles shows them: its attributes are its vertices', and its indices lead to every face's corners. */
  lemma MeshShowsFaces(ts: seq<Triangle>, num: Numeric)
    ensures var m, vs := MeshFrom(Corners(ts, num), num), Stored(Corners(ts, num), num);
            && Vertices(m.positions, m.normals, vs, num)
            && (3 * |ts| <= WORDS ==> Faces(m.indices, vs, ts, num))
  {
    var cs := Corners(ts, num);
    MeshIsLossless(cs, num);
    StoredVertices(Stored(cs, num), num);
    if 3 * |ts| <= WORDS {
      RecoveredFaces(MeshFrom(cs, num).indices, ts, num);
    }
  }
}
