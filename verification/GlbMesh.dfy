/** Indexed meshes: shared vertices per material, and the asset file that carries them. */
module GlbMesh {
  import opened Wrappers
  import opened LDrawGeometry
  import opened LDrawScene
  import opened GlbBytes
  import opened Sequences

  // The numeric conversions of the compiler: six-decimal digits, the face normal and single-precision bits.
  datatype Numeric = Numeric(digits: real -> string, normal: (Vec3, Vec3, Vec3) -> Vec3, bits: real -> Word)

  datatype Corner = Corner(p: Vec3, n: Vec3)

  // The parts of a vertex key; the source joins them with slashes, which no digits contain.
  datatype VertexKey = VertexKey(px: string, py: string, pz: string, nx: string, ny: string, nz: string)

  function Key(c: Corner, num: Numeric): VertexKey {
    VertexKey(num.digits(c.p.x), num.digits(c.p.y), num.digits(c.p.z),
              num.digits(c.n.x), num.digits(c.n.y), num.digits(c.n.z))
  }

  function TriangleCorners(t: Triangle, num: Numeric): (r: seq<Corner>)
    ensures |r| == 3
  {
    var n := num.normal(t.a, t.b, t.c);
    [Corner(t.a, n), Corner(t.b, n), Corner(t.c, n)]
  }

  function Corners(ts: seq<Triangle>, num: Numeric): (r: seq<Corner>)
    ensures |r| == 3 * |ts|
  {
    if ts == [] then [] else Corners(ts[..|ts| - 1], num) + TriangleCorners(ts[|ts| - 1], num)
  }

  predicate HasKey(vs: seq<Corner>, key: VertexKey, num: Numeric) {
    exists v | v in vs :: Key(v, num) == key
  }

  // The first corner of each key, in order of appearance.
  function Stored(cs: seq<Corner>, num: Numeric): seq<Corner> {
    if cs == [] then []
    else
      var vs, c := Stored(cs[..|cs| - 1], num), cs[|cs| - 1];
      if HasKey(vs, Key(c, num), num) then vs else vs + [c]
  }

  ghost predicate DistinctKeys(vs: seq<Corner>, num: Numeric) {
    forall i, j :: 0 <= i < j < |vs| ==> Key(vs[i], num) != Key(vs[j], num)
  }

  /** Stored vertices have pairwise distinct keys, come from the input, and cover every input key. */
  lemma {:induction false} StoredIsFaithful(cs: seq<Corner>, num: Numeric)
    ensures var vs := Stored(cs, num);
            && DistinctKeys(vs, num) && |vs| <= |cs|
            && (forall v | v in vs :: v in cs)
            && (forall c | c in cs :: HasKey(vs, Key(c, num), num))
  {
    if cs != [] {
      StoredIsFaithful(cs[..|cs| - 1], num);
    }
  }

  function Words(vs: seq<Vec3>, num: Numeric): (r: seq<Word>)
    ensures |r| == 3 * |vs|
  {
    if vs == [] then []
    else
      var p := vs[|vs| - 1];
      Words(vs[..|vs| - 1], num) + [num.bits(p.x), num.bits(p.y), num.bits(p.z)]
  }

  function PositionsOf(vs: seq<Corner>): seq<Vec3> {
    seq(|vs|, i requires 0 <= i < |vs| => vs[i].p)
  }

  function NormalsOf(vs: seq<Corner>): seq<Vec3> {
    seq(|vs|, i requires 0 <= i < |vs| => vs[i].n)
  }

  // ---- Bounds ----

  // The extent along one axis; None before the first value.
  datatype Extent = Extent(min: real, max: real)

  function Stretch(e: Option<Extent>, x: real): Option<Extent> {
    match e
    case None => Some(Extent(x, x))
    case Some(Extent(lo, hi)) => Some(Extent(if x < lo then x else lo, if hi < x then x else hi))
  }

  // The extent contains every value and each of its ends is one of them.
  ghost predicate Tight(e: Option<Extent>, xs: seq<real>) {
    if xs == [] then e.None?
    else e.Some? && e.value.min in xs && e.value.max in xs && forall x | x in xs :: e.value.min <= x <= e.value.max
  }

  lemma StretchTight(e: Option<Extent>, xs: seq<real>, x: real)
    requires Tight(e, xs)
    ensures Tight(Stretch(e, x), xs + [x])
  {
  }

  function Xs(vs: seq<Corner>): seq<real> {
    seq(|vs|, i requires 0 <= i < |vs| => vs[i].p.x)
  }

  function Ys(vs: seq<Corner>): seq<real> {
    seq(|vs|, i requires 0 <= i < |vs| => vs[i].p.y)
  }

  function Zs(vs: seq<Corner>): seq<real> {
    seq(|vs|, i requires 0 <= i < |vs| => vs[i].p.z)
  }

  datatype Box = Box(x: Option<Extent>, y: Option<Extent>, z: Option<Extent>)

  function StretchBox(b: Box, p: Vec3): Box {
    Box(Stretch(b.x, p.x), Stretch(b.y, p.y), Stretch(b.z, p.z))
  }

  ghost predicate TightBox(b: Box, vs: seq<Corner>) {
    Tight(b.x, Xs(vs)) && Tight(b.y, Ys(vs)) && Tight(b.z, Zs(vs))
  }

  lemma StretchBoxTight(b: Box, vs: seq<Corner>, c: Corner)
    requires TightBox(b, vs)
    ensures TightBox(StretchBox(b, c.p), vs + [c])
  {
    assert Xs(vs + [c]) == Xs(vs) + [c.p.x] && Ys(vs + [c]) == Ys(vs) + [c.p.y] && Zs(vs + [c]) == Zs(vs) + [c.p.z];
    StretchTight(b.x, Xs(vs), c.p.x);
    StretchTight(b.y, Ys(vs), c.p.y);
    StretchTight(b.z, Zs(vs), c.p.z);
  }

  function Minimum(b: Box): seq<real> {
    if b.x.Some? && b.y.Some? && b.z.Some? then [b.x.value.min, b.y.value.min, b.z.value.min] else []
  }

  function Maximum(b: Box): seq<real> {
    if b.x.Some? && b.y.Some? && b.z.Some? then [b.x.value.max, b.y.value.max, b.z.value.max] else []
  }

  // The accessor bounds are the exact extent of the vertices along each axis.
  ghost predicate Spans(min: seq<real>, max: seq<real>, vs: seq<Corner>) {
    exists b :: TightBox(b, vs) && min == Minimum(b) && max == Maximum(b)
  }

  // ---- Indexing ----

  // The word names a stored vertex with the corner's key.
  ghost predicate Names(w: Word, vs: seq<Corner>, c: Corner, num: Numeric) {
    exists s :: 0 <= s < |vs| && w == Uint32(s) && Key(vs[s], num) == Key(c, num)
  }

  ghost predicate Indexed(index: map<VertexKey, Word>, vs: seq<Corner>, num: Numeric) {
    && (forall k :: k in index <==> HasKey(vs, k, num))
    && (forall s :: 0 <= s < |vs| ==> Key(vs[s], num) in index && index[Key(vs[s], num)] == Uint32(s))
  }

  // The attributes, indices, index map and extent of the triangles seen so far.
  datatype Mesh = Mesh(positions: seq<Word>, normals: seq<Word>, indices: seq<Word>, index: map<VertexKey, Word>, box: Box)

  const EMPTY: Mesh := Mesh([], [], [], map[], Box(None, None, None))

  ghost predicate MeshOf(m: Mesh, cs: seq<Corner>, num: Numeric) {
    var vs := Stored(cs, num);
    && m.positions == Words(PositionsOf(vs), num)
    && m.normals == Words(NormalsOf(vs), num)
    && Indexed(m.index, vs, num)
    && AllNamed(m.indices, vs, cs, num)
    && TightBox(m.box, vs)
  }

  ghost predicate AllNamed(indices: seq<Word>, vs: seq<Corner>, cs: seq<Corner>, num: Numeric) {
    && |indices| == |cs|
    && forall i :: 0 <= i < |cs| ==> Names(indices[i], vs, cs[i], num)
  }

  // A key seen before reuses its vertex; a new one appends a vertex.
  function AddCorner(m: Mesh, c: Corner, num: Numeric): Mesh {
    var key := Key(c, num);
    if key in m.index then m.(indices := m.indices + [m.index[key]])
    else
      var index := Uint32(|m.positions| / 3);
      Mesh(m.positions + [num.bits(c.p.x), num.bits(c.p.y), num.bits(c.p.z)],
           m.normals + [num.bits(c.n.x), num.bits(c.n.y), num.bits(c.n.z)],
           m.indices + [index], m.index[key := index], StretchBox(m.box, c.p))
  }

  lemma AddCornerExtends(m: Mesh, cs: seq<Corner>, c: Corner, num: Numeric)
    requires MeshOf(m, cs, num)
    ensures MeshOf(AddCorner(m, c, num), cs + [c], num)
  {
    var vs, key := Stored(cs, num), Key(c, num);
    assert (cs + [c])[..|cs|] == cs;
    if key in m.index {
      NamedByIndex(m.index, vs, c, num);
      NamedGrows(m.indices, vs, vs, cs, m.index[key], c, num);
    } else {
      AttributesGrow(vs, c, num);
      IndexGrows(m.index, vs, c, num);
      StretchBoxTight(m.box, vs, c);
      assert |m.positions| / 3 == |vs|;
      assert (vs + [c])[|vs|] == c;
      assert Names(Uint32(|vs|), vs + [c], c, num);
      NamedGrows(m.indices, vs, vs + [c], cs, Uint32(|vs|), c, num);
    }
  }

  lemma NamedGrows(indices: seq<Word>, vs: seq<Corner>, after: seq<Corner>, cs: seq<Corner>, w: Word, c: Corner, num: Numeric)
    requires AllNamed(indices, vs, cs, num) && vs <= after && Names(w, after, c, num)
    ensures AllNamed(indices + [w], after, cs + [c], num)
  {
    forall i | 0 <= i < |cs| ensures Names(indices[i], after, cs[i], num) {
      NamesStays(indices[i], vs, after, cs[i], num);
    }
  }

  lemma Prefix<T>(s: seq<T>, i: nat)
    requires i < |s|
    ensures s[..i + 1] == s[..i] + [s[i]] && s[..i + 1][..i] == s[..i]
  {
  }

  lemma Appended<T>(a: seq<T>, b: seq<T>, i: nat)
    requires i < |b|
    ensures a + b[..i] + [b[i]] == a + b[..i + 1]
    ensures a + b[..0] == a && b[..|b|] == b
  {
  }

  function MeshFrom(cs: seq<Corner>, num: Numeric): Mesh {
    if cs == [] then EMPTY else AddCorner(MeshFrom(cs[..|cs| - 1], num), cs[|cs| - 1], num)
  }

  lemma {:induction false} MeshFromMeaning(cs: seq<Corner>, num: Numeric)
    ensures MeshOf(MeshFrom(cs, num), cs, num)
  {
    if cs != [] {
      var init, last := cs[..|cs| - 1], cs[|cs| - 1];
      LastApart(cs);
      MeshFromMeaning(init, num);
      AddCornerExtends(MeshFrom(init, num), init, last, num);
    }
  }

  method IndexVertices(ts: seq<Triangle>, num: Numeric) returns (m: Mesh)
    ensures m == MeshFrom(Corners(ts, num), num)
  {
    m := EMPTY;
    for t := 0 to |ts|
      invariant m == MeshFrom(Corners(ts[..t], num), num)
    {
      var corners := TriangleCorners(ts[t], num);
      ghost var seen := Corners(ts[..t], num);
      Appended(seen, corners, 0);
      for j := 0 to 3
        invariant m == MeshFrom(seen + corners[..j], num)
      {
        Appended(seen, corners, j);
        Prefix(seen + corners[..j + 1], |seen| + j);
        m := AddCorner(m, corners[j], num);
      }
      Prefix(ts, t);
    }
    assert ts[..|ts|] == ts;
  }

  lemma AttributesGrow(vs: seq<Corner>, c: Corner, num: Numeric)
    ensures Words(PositionsOf(vs + [c]), num)
         == Words(PositionsOf(vs), num) + [num.bits(c.p.x), num.bits(c.p.y), num.bits(c.p.z)]
    ensures Words(NormalsOf(vs + [c]), num)
         == Words(NormalsOf(vs), num) + [num.bits(c.n.x), num.bits(c.n.y), num.bits(c.n.z)]
  {
    assert PositionsOf(vs + [c])[..|vs|] == PositionsOf(vs);
    assert NormalsOf(vs + [c])[..|vs|] == NormalsOf(vs);
  }

  lemma IndexGrows(index: map<VertexKey, Word>, vs: seq<Corner>, c: Corner, num: Numeric)
    requires Indexed(index, vs, num) && Key(c, num) !in index
    ensures Indexed(index[Key(c, num) := Uint32(|vs|)], vs + [c], num)
  {
    forall k ensures HasKey(vs + [c], k, num) <==> HasKey(vs, k, num) || k == Key(c, num) {
      KeyGrows(vs, c, k, num);
    }
  }

  lemma KeyGrows(vs: seq<Corner>, c: Corner, k: VertexKey, num: Numeric)
    ensures HasKey(vs + [c], k, num) <==> HasKey(vs, k, num) || k == Key(c, num)
  {
    assert (vs + [c])[|vs|] == c && c in vs + [c];
    assert forall v :: v in vs ==> v in vs + [c];
  }

  lemma NamedByIndex(index: map<VertexKey, Word>, vs: seq<Corner>, c: Corner, num: Numeric)
    requires Indexed(index, vs, num) && Key(c, num) in index
    ensures Names(index[Key(c, num)], vs, c, num)
  {
    var v :| v in vs && Key(v, num) == Key(c, num);
    var s :| 0 <= s < |vs| && vs[s] == v;
    assert index[Key(vs[s], num)] == Uint32(s);
  }

  lemma NamesStays(w: Word, vs: seq<Corner>, after: seq<Corner>, c: Corner, num: Numeric)
    requires Names(w, vs, c, num) && vs <= after
    ensures Names(w, after, c, num)
  {
    var s :| 0 <= s < |vs| && w == Uint32(s) && Key(vs[s], num) == Key(c, num);
    assert after[s] == vs[s];
  }

  /** Looking an index up in the stored vertices gives back the input corner's key. */
  ghost predicate Recovers(indices: seq<Word>, cs: seq<Corner>, num: Numeric) {
    var vs := Stored(cs, num);
    && |indices| == |cs|
    && forall i :: 0 <= i < |cs| ==> Value(indices[i]) < |vs| && Key(vs[Value(indices[i])], num) == Key(cs[i], num)
  }

  lemma NamesRecover(indices: seq<Word>, cs: seq<Corner>, num: Numeric)
    requires |cs| <= WORDS && AllNamed(indices, Stored(cs, num), cs, num)
    ensures Recovers(indices, cs, num)
  {
    StoredIsFaithful(cs, num);
    var vs := Stored(cs, num);
    forall i | 0 <= i < |cs| ensures Value(indices[i]) < |vs| && Key(vs[Value(indices[i])], num) == Key(cs[i], num) {
      var s :| 0 <= s < |vs| && indices[i] == Uint32(s) && Key(vs[s], num) == Key(cs[i], num);
      Uint32Value(s);
      Remainder(s, 0, s);
    }
  }

  /**
   Indexing loses nothing but the digits beyond the sixth: the attributes are
   those of the stored vertices, the extent is exactly theirs, and every index
   leads to a stored vertex with its corner's key as long as indices fit a word.
   */
  lemma MeshIsLossless(cs: seq<Corner>, num: Numeric)
    ensures var m, vs := MeshFrom(cs, num), Stored(cs, num);
            && m.positions == Words(PositionsOf(vs), num)
            && m.normals == Words(NormalsOf(vs), num)
            && Spans(Minimum(m.box), Maximum(m.box), vs)
            && (|cs| <= WORDS ==> Recovers(m.indices, cs, num))
  {
    MeshFromMeaning(cs, num);
    if |cs| <= WORDS {
      NamesRecover(MeshFrom(cs, num).indices, cs, num);
    }
  }
}
