/** One catalogue asset: triangles grouped by material, indexed, laid out and wrapped as a GLB file. */
module GlbAsset {
  import opened Wrappers
  import opened LDrawGeometry
  import opened LDrawScene
  import opened GlbBytes
  import opened GlbContainer
  import opened GlbMesh
  import opened GlbFaces
  import opened Sequences

  datatype MeshPrimitive = MeshPrimitive(position: nat, normal: nat, indices: nat, material: nat)

  // The JSON part of the asset, as far as it describes the binary part.
  datatype Document = Document(materials: seq<Material>, primitives: seq<MeshPrimitive>, views: seq<View>,
                               accessors: seq<Accessor>, byteLength: nat)

  // ---- Grouping ----

  // The triangles of one material in their original order.
  function OfMaterial(ts: seq<Triangle>, m: Material): seq<Triangle> {
    if ts == [] then []
    else OfMaterial(ts[..|ts| - 1], m) + (if ts[|ts| - 1].material == m then [ts[|ts| - 1]] else [])
  }

  ghost predicate Grouped(groups: map<Material, seq<Triangle>>, ts: seq<Triangle>) {
    forall m :: if m in groups then groups[m] == OfMaterial(ts, m) != [] else OfMaterial(ts, m) == []
  }

  function AddTriangle(groups: map<Material, seq<Triangle>>, t: Triangle): map<Material, seq<Triangle>> {
    groups[t.material := (if t.material in groups then groups[t.material] else []) + [t]]
  }

  lemma AddTriangleGroups(groups: map<Material, seq<Triangle>>, ts: seq<Triangle>, t: Triangle)
    requires Grouped(groups, ts)
    ensures Grouped(AddTriangle(groups, t), ts + [t])
  {
    assert (ts + [t])[..|ts|] == ts;
  }

  function StretchTriangle(b: Box, t: Triangle): Box {
    StretchBox(StretchBox(StretchBox(b, t.a), t.b), t.c)
  }

  lemma StretchTriangleTight(b: Box, seen: seq<Corner>, t: Triangle, num: Numeric)
    requires TightBox(b, seen)
    ensures TightBox(StretchTriangle(b, t), seen + TriangleCorners(t, num))
  {
    var cs := TriangleCorners(t, num);
    StretchBoxTight(b, seen, cs[0]);
    StretchBoxTight(StretchBox(b, t.a), seen + [cs[0]], cs[1]);
    StretchBoxTight(StretchBox(StretchBox(b, t.a), t.b), seen + [cs[0]] + [cs[1]], cs[2]);
    OneByOne(seen, cs[0], cs[1], cs[2]);
    assert cs == [cs[0], cs[1], cs[2]];
  }

  lemma OneByOne<T>(q: seq<T>, a: T, b: T, c: T)
    ensures q + [a] + [b] + [c] == q + [a, b, c]
  {
  }

  method GroupByMaterial(ts: seq<Triangle>, num: Numeric) returns (groups: map<Material, seq<Triangle>>, bounds: Box)
    ensures Grouped(groups, ts)
    ensures TightBox(bounds, Corners(ts, num))
  {
    groups, bounds := map[], EMPTY.box;
    for i := 0 to |ts|
      invariant Grouped(groups, ts[..i])
      invariant TightBox(bounds, Corners(ts[..i], num))
    {
      Prefix(ts, i);
      AddTriangleGroups(groups, ts[..i], ts[i]);
      StretchTriangleTight(bounds, Corners(ts[..i], num), ts[i], num);
      groups := AddTriangle(groups, ts[i]);
      bounds := StretchTriangle(bounds, ts[i]);
    }
    assert ts[..|ts|] == ts;
  }

  // ---- The binary part ----

  // The accessors and views of a primitive, in the numbers of the format: floats for vertices, integers for indices.
  ghost predicate Described(p: MeshPrimitive, views: seq<View>, accessors: seq<Accessor>,
                            positions: nat, normals: nat, indices: nat) {
    && p.position < |accessors| && p.normal < |accessors| && p.indices < |accessors| == |views|
    && accessors[p.position].(min := [], max := []) == Accessor(p.position, 5126, positions / 3, Vector3, [], [])
    && accessors[p.normal] == Accessor(p.normal, 5126, normals / 3, Vector3, [], [])
    && accessors[p.indices] == Accessor(p.indices, 5125, indices, Scalar, [], [])
    && views[p.position].target == 34962 && views[p.normal].target == 34962 && views[p.indices].target == 34963
  }

  // Primitive k and its three accessors hold the mesh.
  ghost predicate Holds(k: nat, p: MeshPrimitive, views: seq<View>, accessors: seq<Accessor>, contents: seq<seq<Word>>, m: Mesh) {
    && p == MeshPrimitive(3 * k, 3 * k + 1, 3 * k + 2, k) && 3 * k + 2 < |contents| == |accessors|
    && contents[3 * k] == m.positions && contents[3 * k + 1] == m.normals && contents[3 * k + 2] == m.indices
    && accessors[3 * k].min == Minimum(m.box) && accessors[3 * k].max == Maximum(m.box)
    && Described(p, views, accessors, |m.positions|, |m.normals|, |m.indices|)
  }

  method AddPrimitive(b: Buffer, k: nat, m: Mesh) returns (p: MeshPrimitive)
    requires b.Valid() && |b.contents| == 3 * k
    modifies b
    ensures b.Valid() && |b.contents| == 3 * k + 3
    ensures old(b.accessors) <= b.accessors && old(b.contents) <= b.contents && old(b.views) <= b.views
    ensures Holds(k, p, b.views, b.accessors, b.contents, m)
  {
    var position := b.AppendFloatAccessor(m.positions, Minimum(m.box), Maximum(m.box));
    var normal := b.AppendFloatAccessor(m.normals, [], []);
    var index := b.AppendIndexAccessor(m.indices);
    p := MeshPrimitive(position, normal, index, k);
  }

  // Every material has its primitive, in the given order.
  ghost predicate HoldsAll(primitives: seq<MeshPrimitive>, views: seq<View>, accessors: seq<Accessor>, contents: seq<seq<Word>>, meshes: seq<Mesh>) {
    && |primitives| == |meshes|
    && forall k :: 0 <= k < |primitives| ==> Holds(k, primitives[k], views, accessors, contents, meshes[k])
  }

  ghost predicate MeshesOf(meshes: seq<Mesh>, names: seq<Material>, ts: seq<Triangle>, num: Numeric) {
    && |meshes| <= |names|
    && forall k :: 0 <= k < |meshes| ==> meshes[k] == MeshFrom(Corners(OfMaterial(ts, names[k]), num), num)
  }

  lemma HoldsAllGrows(primitives: seq<MeshPrimitive>, views: seq<View>, accessors: seq<Accessor>, contents: seq<seq<Word>>,
                      meshes: seq<Mesh>, p: MeshPrimitive, views': seq<View>, accessors': seq<Accessor>, contents': seq<seq<Word>>, m: Mesh)
    requires HoldsAll(primitives, views, accessors, contents, meshes)
    requires views <= views' && accessors <= accessors' && contents <= contents'
    requires Holds(|primitives|, p, views', accessors', contents', m)
    ensures HoldsAll(primitives + [p], views', accessors', contents', meshes + [m])
  {
    forall k | 0 <= k < |primitives| ensures Holds(k, primitives[k], views', accessors', contents', meshes[k]) {
      assert Holds(k, primitives[k], views, accessors, contents, meshes[k]);
    }
  }

  method BuildBuffer(groups: map<Material, seq<Triangle>>, names: seq<Material>, ghost ts: seq<Triangle>, num: Numeric)
    returns (b: Buffer, primitives: seq<MeshPrimitive>, ghost meshes: seq<Mesh>)
    requires Grouped(groups, ts) && forall name | name in names :: name in groups
    ensures b.Valid() && fresh(b)
    ensures |primitives| == |names|
    ensures HoldsAll(primitives, b.views, b.accessors, b.contents, meshes) && MeshesOf(meshes, names, ts, num)
  {
    b := new Buffer();
    primitives, meshes := [], [];
    for k := 0 to |names|
      invariant b.Valid() && fresh(b) && |b.contents| == 3 * k && |primitives| == k
      invariant HoldsAll(primitives, b.views, b.accessors, b.contents, meshes) && MeshesOf(meshes, names, ts, num)
    {
      ghost var views, accessors, contents := b.views, b.accessors, b.contents;
      var m := IndexVertices(groups[names[k]], num);
      var p := AddPrimitive(b, k, m);
      HoldsAllGrows(primitives, views, accessors, contents, meshes, p, b.views, b.accessors, b.contents, m);
      primitives, meshes := primitives + [p], meshes + [m];
    }
  }

  // ---- The file ----

  // A list of the set's elements without repetition, such as its sorted list.
  ghost predicate Enumerates(names: seq<Material>, set_: set<Material>) {
    && (forall m :: m in names <==> m in set_)
    && (forall i, j :: 0 <= i < j < |names| ==> names[i] != names[j])
  }

  function Read(doc: Document, bin: seq<Byte>, accessor: nat): seq<Word> {
    if accessor < |doc.accessors| && doc.accessors[accessor].view < |doc.views| then
      var v := doc.views[doc.accessors[accessor].view];
      if v.offset + v.length <= |bin| then ReadView(bin, v) else []
    else []
  }

  // What the reader finds behind one primitive: the stored vertices of the
  // triangles, their exact extent, and indices that lead to every corner's key.
  ghost predicate PrimitiveDecodes(doc: Document, bin: seq<Byte>, p: MeshPrimitive, cs: seq<Corner>, num: Numeric) {
    var vs := Stored(cs, num);
    && Read(doc, bin, p.position) == Words(PositionsOf(vs), num)
    && Read(doc, bin, p.normal) == Words(NormalsOf(vs), num)
    && Recovers(Read(doc, bin, p.indices), cs, num)
    && Described(p, doc.views, doc.accessors, 3 * |vs|, 3 * |vs|, |cs|)
    && Spans(doc.accessors[p.position].min, doc.accessors[p.position].max, vs)
  }

  /** Every material's primitive decodes to that material's triangles; views are aligned, disjoint and in bounds. */
  ghost predicate Decodes(doc: Document, bin: seq<Byte>, ts: seq<Triangle>, num: Numeric) {
    && |doc.primitives| == |doc.materials|
    && Aligned(doc.views, doc.byteLength) && Disjoint(doc.views) && doc.byteLength <= |bin|
    && forall k :: 0 <= k < |doc.primitives| ==>
         PrimitiveDecodes(doc, bin, doc.primitives[k], Corners(OfMaterial(ts, doc.materials[k]), num), num)
  }

  // ---- What a reader sees of each material ----

  // The triangles of the material, by their positions among all, and the vertices that show them.
  ghost predicate MaterialShown(doc: Document, bin: seq<Byte>, k: nat, ts: seq<Triangle>, num: Numeric,
                                at: seq<nat>, own: seq<Triangle>, vs: seq<Corner>)
    requires k < |doc.primitives| == |doc.materials|
  {
    var p := doc.primitives[k];
    && Thinned(ts, own, at) && (forall j :: 0 <= j < |ts| ==> (j in at <==> ts[j].material == doc.materials[k]))
    && Vertices(Read(doc, bin, p.position), Read(doc, bin, p.normal), vs, num)
    && (forall i, j :: 0 <= i < j < |vs| ==> !(SameDigits(vs[i].p, vs[j].p, num) && SameDigits(vs[i].n, vs[j].n, num)))
    && Faces(Read(doc, bin, p.indices), vs, own, num)
    && Described(p, doc.views, doc.accessors, 3 * |vs|, 3 * |vs|, 3 * |own|)
    && (vs != [] ==> Bounds(doc.accessors[p.position].min, doc.accessors[p.position].max, PositionsOf(vs)))
  }

  /** Every material shows its own triangles, in order: their corners in order and their normals, up to the sixth digit. */
  ghost predicate ShowsFaces(doc: Document, bin: seq<Byte>, ts: seq<Triangle>, num: Numeric) {
    && |doc.primitives| == |doc.materials|
    && forall k | 0 <= k < |doc.primitives| :: IsShown(doc, bin, k, ts, num)
  }

  ghost predicate IsShown(doc: Document, bin: seq<Byte>, k: nat, ts: seq<Triangle>, num: Numeric)
    requires k < |doc.primitives| == |doc.materials|
  {
    exists at, own, vs :: MaterialShown(doc, bin, k, ts, num, at, own, vs)
  }

  lemma {:induction false} OfMaterialInOrder(ts: seq<Triangle>, m: Material) returns (at: seq<nat>)
    ensures Thinned(ts, OfMaterial(ts, m), at)
    ensures forall j :: 0 <= j < |ts| ==> (j in at <==> ts[j].material == m)
  {
    at := [];
    if ts != [] {
      var n := |ts| - 1;
      at := OfMaterialInOrder(ts[..n], m);
      LastApart(ts);
      ThinnedAppend(ts[..n], OfMaterial(ts[..n], m), at, ts[n]);
      RisingAppend(at, n);
      if ts[n].material == m {
        at := at + [n];
      }
    }
  }

  lemma DecodedShowsFaces(doc: Document, bin: seq<Byte>, ts: seq<Triangle>, num: Numeric)
    requires Decodes(doc, bin, ts, num)
    ensures ShowsFaces(doc, bin, ts, num)
  {
    forall k | 0 <= k < |doc.primitives| ensures IsShown(doc, bin, k, ts, num) {
      var own := OfMaterial(ts, doc.materials[k]);
      var at := OfMaterialInOrder(ts, doc.materials[k]);
      var cs := Corners(own, num);
      var vs := Stored(cs, num);
      assert PrimitiveDecodes(doc, bin, doc.primitives[k], cs, num);
      StoredVertices(vs, num);
      StoredIsFaithful(cs, num);
      RecoveredFaces(Read(doc, bin, doc.primitives[k].indices), own, num);
      if vs != [] {
        SpansIsBounds(doc.accessors[doc.primitives[k].position].min, doc.accessors[doc.primitives[k].position].max, vs);
      }
      DistinctVertices(vs, num);
      assert MaterialShown(doc, bin, k, ts, num, at, own, vs);
    }
  }

  lemma DistinctVertices(vs: seq<Corner>, num: Numeric)
    requires DistinctKeys(vs, num)
    ensures forall i, j :: 0 <= i < j < |vs| ==> !(SameDigits(vs[i].p, vs[j].p, num) && SameDigits(vs[i].n, vs[j].n, num))
  {
  }

  ghost predicate Within(e: Option<Extent>, x: real) {
    e.Some? && e.value.min <= x <= e.value.max
  }

  ghost predicate Inside(bounds: Box, p: Vec3) {
    Within(bounds.x, p.x) && Within(bounds.y, p.y) && Within(bounds.z, p.z)
  }

  lemma CornerInside(bounds: Box, cs: seq<Corner>, i: nat)
    requires TightBox(bounds, cs) && i < |cs|
    ensures Inside(bounds, cs[i].p)
  {
    assert Xs(cs)[i] in Xs(cs) && Ys(cs)[i] in Ys(cs) && Zs(cs)[i] in Zs(cs);
  }

  /** The extent of the whole part takes in all corners of all triangles. */
  lemma ExtentOfTriangles(ts: seq<Triangle>, bounds: Box, num: Numeric, t: Triangle)
    requires TightBox(bounds, Corners(ts, num)) && t in ts
    ensures Inside(bounds, t.a) && Inside(bounds, t.b) && Inside(bounds, t.c)
  {
    var i :| 0 <= i < |ts| && ts[i] == t;
    CornersAt(ts, i, num);
    CornerInside(bounds, Corners(ts, num), 3 * i);
    CornerInside(bounds, Corners(ts, num), 3 * i + 1);
    CornerInside(bounds, Corners(ts, num), 3 * i + 2);
  }

  lemma ReadIsContent(doc: Document, bin: seq<Byte>, padded: seq<Byte>, contents: seq<seq<Word>>, i: nat)
    requires i < |doc.accessors| == |contents| == |doc.views| && doc.accessors[i].view == i
    requires Aligned(doc.views, |bin|) && bin <= padded && ReadView(bin, doc.views[i]) == contents[i]
    ensures Read(doc, padded, i) == contents[i]
  {
    ViewsSurvive(bin, padded, doc.views);
    assert Fits(doc.views[i], |padded|);
  }

  lemma {:induction false} OfMaterialIsPart(ts: seq<Triangle>, m: Material)
    ensures |OfMaterial(ts, m)| <= |ts|
  {
    if ts != [] {
      OfMaterialIsPart(ts[..|ts| - 1], m);
    }
  }

  method BuildGLB(ts: seq<Triangle>, num: Numeric, sort: set<Material> -> seq<Material>, marshal: Document -> Option<seq<Byte>>)
    returns (r: Option<seq<Byte>>, bounds: Box, ghost doc: Document)
    requires forall s :: Enumerates(sort(s), s)
    ensures TightBox(bounds, Corners(ts, num))
    ensures Enumerates(doc.materials, set t | t in ts :: t.material)
    ensures marshal(doc).None? <==> r.None?
    ensures r.Some? && |r.value| < WORDS && 3 * |ts| <= WORDS ==>
              && Parse(r.value).Some?
              && Pads(Parse(r.value).value.0, marshal(doc).value, 0x20)
              && Decodes(doc, Parse(r.value).value.1, ts, num)
              && ShowsFaces(doc, Parse(r.value).value.1, ts, num)
  {
    var groups;
    groups, bounds := GroupByMaterial(ts, num);
    var names := sort(groups.Keys);
    var b, primitives, meshes := BuildBuffer(groups, names, ts, num);
    var document := Document(names, primitives, b.views, b.accessors, |b.bin|);
    doc := document;
    KeysAreMaterials(groups, ts);
    var json := marshal(document);
    if json.None? {
      r := None;
    } else {
      var glb, paddedJson, paddedBin := Assemble(json.value, b.bin);
      r := Some(glb);
      ContainerRoundTrip(paddedJson, paddedBin);
      if 3 * |ts| <= WORDS {
        BufferDecodes(doc, b.bin, paddedBin, b.contents, meshes, ts, num);
        DecodedShowsFaces(doc, paddedBin, ts, num);
      }
    }
  }

  lemma BufferDecodes(doc: Document, bin: seq<Byte>, padded: seq<Byte>, contents: seq<seq<Word>>, meshes: seq<Mesh>,
                      ts: seq<Triangle>, num: Numeric)
    requires |doc.views| == |doc.accessors| == |contents| && doc.byteLength == |bin| && bin <= padded
    requires Aligned(doc.views, |bin|) && Disjoint(doc.views)
    requires forall i :: 0 <= i < |doc.accessors| ==> doc.accessors[i].view == i
    requires forall i :: 0 <= i < |doc.views| ==> ReadView(bin, doc.views[i]) == contents[i]
    requires |doc.primitives| == |doc.materials|
    requires HoldsAll(doc.primitives, doc.views, doc.accessors, contents, meshes) && MeshesOf(meshes, doc.materials, ts, num)
    requires 3 * |ts| <= WORDS
    ensures Decodes(doc, padded, ts, num)
  {
    AllRead(doc, bin, padded, contents);
    forall k | 0 <= k < |doc.primitives|
      ensures PrimitiveDecodes(doc, padded, doc.primitives[k], Corners(OfMaterial(ts, doc.materials[k]), num), num)
    {
      assert Holds(k, doc.primitives[k], doc.views, doc.accessors, contents, meshes[k]);
      HeldIsRead(doc, padded, contents, k, meshes[k]);
      OfMaterialIsPart(ts, doc.materials[k]);
      MeshDecodes(doc, padded, doc.primitives[k], meshes[k], Corners(OfMaterial(ts, doc.materials[k]), num), num);
    }
  }

  lemma HeldIsRead(doc: Document, padded: seq<Byte>, contents: seq<seq<Word>>, k: nat, m: Mesh)
    requires forall i :: 0 <= i < |contents| ==> Read(doc, padded, i) == contents[i]
    requires k < |doc.primitives| && Holds(k, doc.primitives[k], doc.views, doc.accessors, contents, m)
    ensures Read(doc, padded, doc.primitives[k].position) == m.positions
    ensures Read(doc, padded, doc.primitives[k].normal) == m.normals
    ensures Read(doc, padded, doc.primitives[k].indices) == m.indices
  {
  }

  lemma AllRead(doc: Document, bin: seq<Byte>, padded: seq<Byte>, contents: seq<seq<Word>>)
    requires |doc.views| == |doc.accessors| == |contents| && bin <= padded && Aligned(doc.views, |bin|)
    requires forall i :: 0 <= i < |doc.accessors| ==> doc.accessors[i].view == i
    requires forall i :: 0 <= i < |doc.views| ==> ReadView(bin, doc.views[i]) == contents[i]
    ensures forall i :: 0 <= i < |contents| ==> Read(doc, padded, i) == contents[i]
  {
    forall i | 0 <= i < |contents| ensures Read(doc, padded, i) == contents[i] {
      ReadIsContent(doc, bin, padded, contents, i);
    }
  }

  lemma MeshDecodes(doc: Document, bin: seq<Byte>, p: MeshPrimitive, m: Mesh, cs: seq<Corner>, num: Numeric)
    requires m == MeshFrom(cs, num) && |cs| <= WORDS
    requires Read(doc, bin, p.position) == m.positions && Read(doc, bin, p.normal) == m.normals
    requires Read(doc, bin, p.indices) == m.indices
    requires Described(p, doc.views, doc.accessors, |m.positions|, |m.normals|, |m.indices|)
    requires doc.accessors[p.position].min == Minimum(m.box) && doc.accessors[p.position].max == Maximum(m.box)
    ensures PrimitiveDecodes(doc, bin, p, cs, num)
  {
    MeshIsLossless(cs, num);
  }

  lemma {:induction false} MaterialHasTriangles(ts: seq<Triangle>, m: Material)
    ensures OfMaterial(ts, m) != [] <==> exists t :: t in ts && t.material == m
  {
    if ts != [] {
      MaterialHasTriangles(ts[..|ts| - 1], m);
      assert ts[|ts| - 1] in ts;
      assert forall t :: t in ts <==> t in ts[..|ts| - 1] || t == ts[|ts| - 1];
    }
  }

  lemma KeysAreMaterials(groups: map<Material, seq<Triangle>>, ts: seq<Triangle>)
    requires Grouped(groups, ts)
    ensures groups.Keys == set t | t in ts :: t.material
  {
    forall m ensures m in groups <==> m in (set t | t in ts :: t.material) {
      MaterialHasTriangles(ts, m);
    }
  }
}
