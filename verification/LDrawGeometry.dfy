/** Affine transforms of the LDraw catalogue compiler, over real coordinates. */
module LDrawGeometry {
  datatype Vec3 = Vec3(x: real, y: real, z: real)

  // Row-major 3x3 matrix.
  type Matrix = m: seq<real> | |m| == 9 witness [1.0, 0.0, 0.0, 0.0, 1.0, 0.0, 0.0, 0.0, 1.0]

  datatype Transform = Transform(m: Matrix, t: Vec3)

  function Identity(): Transform {
    Transform([1.0, 0.0, 0.0, 0.0, 1.0, 0.0, 0.0, 0.0, 1.0], Vec3(0.0, 0.0, 0.0))
  }

  // One coordinate of an affine map.
  function Affine(a: real, b: real, c: real, d: real, p: Vec3): real {
    a * p.x + b * p.y + c * p.z + d
  }

  function Point(t: Transform, p: Vec3): Vec3 {
    Vec3(Affine(t.m[0], t.m[1], t.m[2], t.t.x, p),
         Affine(t.m[3], t.m[4], t.m[5], t.t.y, p),
         Affine(t.m[6], t.m[7], t.m[8], t.t.z, p))
  }

  function Column(m: Matrix, col: nat): Vec3
    requires col < 3
  {
    Vec3(m[col], m[3 + col], m[6 + col])
  }

  // Entry (row, col) of the matrix product.
  function Entry(parent: Matrix, child: Matrix, row: nat, col: nat): real
    requires row < 3 && col < 3
  {
    Affine(parent[row * 3], parent[row * 3 + 1], parent[row * 3 + 2], 0.0, Column(child, col))
  }

  function Composed(parent: Transform, child: Transform): Transform {
    var a, b := parent.m, child.m;
    Transform(
      [Entry(a, b, 0, 0), Entry(a, b, 0, 1), Entry(a, b, 0, 2),
       Entry(a, b, 1, 0), Entry(a, b, 1, 1), Entry(a, b, 1, 2),
       Entry(a, b, 2, 0), Entry(a, b, 2, 1), Entry(a, b, 2, 2)],
      Point(parent, child.t))
  }

  // The partial dot product that the innermost accumulation has reached after k terms.
  function PartialEntry(parent: Matrix, child: Matrix, row: nat, col: nat, k: nat): real
    requires row < 3 && col < 3 && k <= 3
  {
    if k == 0 then 0.0
    else PartialEntry(parent, child, row, col, k - 1) + parent[row * 3 + (k - 1)] * child[(k - 1) * 3 + col]
  }

  method Compose(parent: Transform, child: Transform) returns (r: Transform)
    ensures r == Composed(parent, child)
  {
    var m := new real[9](_ => 0.0);
    for row := 0 to 3
      invariant forall i :: 0 <= i < row * 3 ==> m[i] == EntryAt(parent.m, child.m, i)
      invariant forall i :: row * 3 <= i < 9 ==> m[i] == 0.0
    {
      for col := 0 to 3
        invariant forall i :: 0 <= i < row * 3 + col ==> m[i] == EntryAt(parent.m, child.m, i)
        invariant forall i :: row * 3 + col <= i < 9 ==> m[i] == 0.0
      {
        var at := row * 3 + col;
        for k := 0 to 3
          invariant forall i :: 0 <= i < at ==> m[i] == EntryAt(parent.m, child.m, i)
          invariant forall i :: at < i < 9 ==> m[i] == 0.0
          invariant m[at] == PartialEntry(parent.m, child.m, row, col, k)
        {
          m[at] := m[at] + parent.m[row * 3 + k] * child.m[k * 3 + col];
        }
        FullEntry(parent.m, child.m, row, col);
      }
    }
    ComposedEntries(parent, child);
    assert m[..] == Composed(parent, child).m;
    r := Transform(m[..], Point(parent, child.t));
  }

  // The entries in the order in which the array holds them.
  function EntryAt(parent: Matrix, child: Matrix, i: nat): real
    requires i < 9
  {
    Entry(parent, child, i / 3, i % 3)
  }

  lemma ComposedEntries(parent: Transform, child: Transform)
    ensures forall i :: 0 <= i < 9 ==> Composed(parent, child).m[i] == EntryAt(parent.m, child.m, i)
  {
  }

  lemma FullEntry(parent: Matrix, child: Matrix, row: nat, col: nat)
    requires row < 3 && col < 3
    ensures PartialEntry(parent, child, row, col, 3) == EntryAt(parent, child, row * 3 + col)
  {
    assert PartialEntry(parent, child, row, col, 1) == parent[row * 3] * child[col];
    assert PartialEntry(parent, child, row, col, 2)
        == PartialEntry(parent, child, row, col, 1) + parent[row * 3 + 1] * child[3 + col];
  }

  /** Composing transforms is applying the child first and the parent to what it returns. */
  lemma ComposePoint(parent: Transform, child: Transform, p: Vec3)
    ensures Point(Composed(parent, child), p) == Point(parent, Point(child, p))
  {
    var a, m, c := parent.m, child.m, Composed(parent, child).m;
    assert c[0] == Entry(a, m, 0, 0) && c[1] == Entry(a, m, 0, 1) && c[2] == Entry(a, m, 0, 2);
    assert c[3] == Entry(a, m, 1, 0) && c[4] == Entry(a, m, 1, 1) && c[5] == Entry(a, m, 1, 2);
    assert c[6] == Entry(a, m, 2, 0) && c[7] == Entry(a, m, 2, 1) && c[8] == Entry(a, m, 2, 2);
    var c0, c1, c2 := Column(m, 0), Column(m, 1), Column(m, 2);
    AffineOfAffine(a[0], a[1], a[2], parent.t.x, c0, c1, c2, child.t, p);
    AffineOfAffine(a[3], a[4], a[5], parent.t.y, c0, c1, c2, child.t, p);
    AffineOfAffine(a[6], a[7], a[8], parent.t.z, c0, c1, c2, child.t, p);
  }

  // One row of the outer map after an inner map given by its columns and translation.
  lemma AffineOfAffine(a: real, b: real, c: real, d: real, c0: Vec3, c1: Vec3, c2: Vec3, t: Vec3, p: Vec3)
    ensures Affine(Affine(a, b, c, 0.0, c0), Affine(a, b, c, 0.0, c1), Affine(a, b, c, 0.0, c2), Affine(a, b, c, d, t), p)
         == Affine(a, b, c, d, Vec3(Affine(c0.x, c1.x, c2.x, t.x, p), Affine(c0.y, c1.y, c2.y, t.y, p), Affine(c0.z, c1.z, c2.z, t.z, p)))
  {
  }

  lemma IdentityPoint(p: Vec3)
    ensures Point(Identity(), p) == p
  {
  }
}
