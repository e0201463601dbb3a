/** Render lines: the groups the compiler emits and the reader that rebuilds segments from them. */
module LDrawLines {
  import opened Wrappers
  import opened LDrawGeometry
  import opened LDrawSource
  import opened LDrawScene
  import opened Sequences

  // ---- Emitting ----

  datatype ColorValue = ColorValue(value: string, edge: string)

  // The colour table of the library and the six hexadecimal digits of a direct colour.
  datatype Palette = Palette(colors: map<int, ColorValue>, hex: nat -> string)

  function HexColor(m: Material, palette: Palette): string {
    match m
    case EdgeFixed(code) =>
      if code in palette.colors && "#" <= palette.colors[code].edge then palette.colors[code].edge else "#333333"
    case Direct(rgb) => "#" + palette.hex(rgb)
    case Fixed(code) =>
      if code in palette.colors && palette.colors[code].value != "" then palette.colors[code].value else "#b7c0c8"
    case _ => "#b7c0c8"
  }

  function LineColor(m: Material, palette: Palette): string {
    match m
    case Current => "current"
    case EdgeCurrent => "edge-current"
    case _ => HexColor(m, palette)
  }

  datatype LineGroup = LineGroup(color: string, conditional: bool, vertices: seq<real>)

  function GroupKey(color: string, conditional: bool): string {
    color + (if conditional then "/true" else "/false")
  }

  /** Different colours or kinds never share a group, whatever characters a colour holds. */
  lemma GroupKeyInjective(a: string, b: bool, c: string, d: bool)
    requires GroupKey(a, b) == GroupKey(c, d)
    ensures a == c && b == d
  {
    var s := GroupKey(a, b);
    assert s[|s| - 2] == (if b then 'u' else 's') && s[|s| - 2] == (if d then 'u' else 's');
    assert s[..|a|] == a && s[..|c|] == c;
  }

  function Coordinates(ps: seq<Vec3>): (r: seq<real>)
    ensures |r| == 3 * |ps|
  {
    if ps == [] then [] else Coordinates(ps[..|ps| - 1]) + [ps[|ps| - 1].x, ps[|ps| - 1].y, ps[|ps| - 1].z]
  }

  // Colour and kind of a group. The source joins them in one string, which GroupKeyInjective shows to be as good.
  type GroupId = (string, bool)

  // The group of a line under the palette.
  function Id(palette: Palette): RenderLine -> GroupId {
    (line: RenderLine) => (LineColor(line.material, palette), line.conditional)
  }

  // The lines of one group, in order.
  function Select(lines: seq<RenderLine>, idOf: RenderLine -> GroupId, id: GroupId): seq<RenderLine> {
    if lines == [] then []
    else
      var last := lines[|lines| - 1];
      Select(lines[..|lines| - 1], idOf, id) + (if idOf(last) == id then [last] else [])
  }

  function Vertices(lines: seq<RenderLine>): seq<real> {
    if lines == [] then [] else Vertices(lines[..|lines| - 1]) + Coordinates(lines[|lines| - 1].points)
  }

  function GroupOf(lines: seq<RenderLine>, idOf: RenderLine -> GroupId, id: GroupId): LineGroup {
    LineGroup(id.0, id.1, Vertices(Select(lines, idOf, id)))
  }

  // One group per colour and kind that occurs, holding the vertices of its lines.
  ghost predicate GroupedLines(groups: map<GroupId, seq<real>>, lines: seq<RenderLine>, idOf: RenderLine -> GroupId) {
    forall id: GroupId :: IsGroup(if id in groups then Some(groups[id]) else None, Select(lines, idOf, id))
  }

  ghost predicate IsGroup(vertices: Option<seq<real>>, selected: seq<RenderLine>) {
    if selected == [] then vertices == None else vertices == Some(Vertices(selected))
  }

  function AddLine(groups: map<GroupId, seq<real>>, line: RenderLine, idOf: RenderLine -> GroupId): map<GroupId, seq<real>> {
    var id := idOf(line);
    groups[id := (if id in groups then groups[id] else []) + Coordinates(line.points)]
  }

  lemma SelectAppend(lines: seq<RenderLine>, line: RenderLine, idOf: RenderLine -> GroupId, id: GroupId)
    ensures Select(lines + [line], idOf, id) == Select(lines, idOf, id) + (if idOf(line) == id then [line] else [])
  {
    assert (lines + [line])[..|lines|] == lines;
  }

  lemma VerticesAppend(lines: seq<RenderLine>, line: RenderLine)
    ensures Vertices(lines + [line]) == Vertices(lines) + Coordinates(line.points)
  {
    assert (lines + [line])[..|lines|] == lines;
  }

  lemma AddLineGroups(groups: map<GroupId, seq<real>>, lines: seq<RenderLine>, line: RenderLine, idOf: RenderLine -> GroupId)
    requires GroupedLines(groups, lines, idOf)
    ensures GroupedLines(AddLine(groups, line, idOf), lines + [line], idOf)
  {
    var added := AddLine(groups, line, idOf);
    forall id: GroupId
      ensures IsGroup(if id in added then Some(added[id]) else None, Select(lines + [line], idOf, id))
    {
      var selected := Select(lines, idOf, id);
      assert IsGroup(if id in groups then Some(groups[id]) else None, selected);
      SelectAppend(lines, line, idOf, id);
      if id == idOf(line) {
        VerticesAppend(selected, line);
      } else {
        assert selected + [] == selected;
      }
    }
  }

  ghost predicate Lists(ids: seq<GroupId>, set_: set<GroupId>) {
    (forall id :: id in ids <==> id in set_) && forall i, j :: 0 <= i < j < |ids| ==> ids[i] != ids[j]
  }

  // The emitted groups are those of all colours and kinds that occur, each once.
  ghost predicate Emitted(groups: seq<LineGroup>, lines: seq<RenderLine>, idOf: RenderLine -> GroupId) {
    && (forall g | g in groups :: g == GroupOf(lines, idOf, (g.color, g.conditional))
                                  && Select(lines, idOf, (g.color, g.conditional)) != [])
    && (forall l | l in lines :: GroupOf(lines, idOf, idOf(l)) in groups)
    && (forall i, j :: 0 <= i < j < |groups| ==> groups[i].color != groups[j].color || groups[i].conditional != groups[j].conditional)
  }

  function Groups(lines: seq<RenderLine>, idOf: RenderLine -> GroupId): map<GroupId, seq<real>> {
    if lines == [] then map[] else AddLine(Groups(lines[..|lines| - 1], idOf), lines[|lines| - 1], idOf)
  }

  lemma {:induction false} GroupsAreGrouped(lines: seq<RenderLine>, idOf: RenderLine -> GroupId)
    ensures GroupedLines(Groups(lines, idOf), lines, idOf)
  {
    if lines != [] {
      var init, last := lines[..|lines| - 1], lines[|lines| - 1];
      LastApart(lines);
      GroupsAreGrouped(init, idOf);
      AddLineGroups(Groups(init, idOf), init, last, idOf);
    }
  }

  method CollectGroups(lines: seq<RenderLine>, idOf: RenderLine -> GroupId) returns (groups: map<GroupId, seq<real>>)
    ensures groups == Groups(lines, idOf)
  {
    groups := map[];
    for i := 0 to |lines|
      invariant groups == Groups(lines[..i], idOf)
    {
      assert lines[..i + 1][..i] == lines[..i];
      groups := AddLine(groups, lines[i], idOf);
    }
    assert lines[..|lines|] == lines;
  }

  // The source lists the group keys in sorted order; any listing of them will do.
  method GroupRenderLines(lines: seq<RenderLine>, palette: Palette, sort: set<GroupId> -> seq<GroupId>)
    returns (result: seq<LineGroup>)
    requires forall s :: Lists(sort(s), s)
    ensures Emitted(result, lines, Id(palette))
  {
    var groups := CollectGroups(lines, Id(palette));
    var ids := sort(groups.Keys);
    result := [];
    for i := 0 to |ids|
      invariant |result| == i
      invariant forall j :: 0 <= j < i ==> ids[j] in groups && result[j] == LineGroup(ids[j].0, ids[j].1, groups[ids[j]])
    {
      result := result + [LineGroup(ids[i].0, ids[i].1, groups[ids[i]])];
    }
    GroupsAreGrouped(lines, Id(palette));
    ListedGroupsEmitted(groups, ids, result, lines, Id(palette));
  }

  lemma ListedGroupsEmitted(groups: map<GroupId, seq<real>>, ids: seq<GroupId>, result: seq<LineGroup>,
                            lines: seq<RenderLine>, idOf: RenderLine -> GroupId)
    requires GroupedLines(groups, lines, idOf) && Lists(ids, groups.Keys)
    requires |result| == |ids|
    requires forall j :: 0 <= j < |ids| ==> ids[j] in groups && result[j] == LineGroup(ids[j].0, ids[j].1, groups[ids[j]])
    ensures Emitted(result, lines, idOf)
  {
    forall l | l in lines ensures GroupOf(lines, idOf, idOf(l)) in result {
      SelectHas(lines, l, idOf);
      var id := idOf(l);
      assert id in groups && id in ids;
      var j :| 0 <= j < |ids| && ids[j] == id;
      assert result[j] == GroupOf(lines, idOf, id);
    }
    forall g | g in result
      ensures g == GroupOf(lines, idOf, (g.color, g.conditional)) && Select(lines, idOf, (g.color, g.conditional)) != []
    {
      var j :| 0 <= j < |ids| && result[j] == g;
      assert ids[j] == (g.color, g.conditional);
    }
  }

  lemma {:induction false} SelectHas(lines: seq<RenderLine>, l: RenderLine, idOf: RenderLine -> GroupId)
    requires l in lines
    ensures l in Select(lines, idOf, idOf(l))
  {
    if l != lines[|lines| - 1] {
      SelectHas(lines[..|lines| - 1], l, idOf);
    }
  }

  lemma {:induction false} SelectIsPart(lines: seq<RenderLine>, idOf: RenderLine -> GroupId, id: GroupId)
    ensures forall l | l in Select(lines, idOf, id) :: l in lines && idOf(l) == id
  {
    if lines != [] {
      SelectIsPart(lines[..|lines| - 1], idOf, id);
    }
  }

  // ---- Reading ----

  datatype Geometry = Geometry(color: string, conditional: bool, positions: seq<real>,
                               control0: seq<real>, control1: seq<real>, directions: seq<real>)

  function Stride(conditional: bool): nat {
    if conditional then 12 else 6
  }

  predicate Readable(g: LineGroup) {
    |g.vertices| % Stride(g.conditional) == 0
  }

  // A whole number of records, counted down; the reader's remainder test means the same.
  predicate Whole(n: nat, conditional: bool) {
    n == 0 || (Stride(conditional) <= n && Whole(n - Stride(conditional), conditional))
  }

  lemma {:induction false} WholeIsDivisible(n: nat, conditional: bool)
    ensures Whole(n, conditional) <==> n % Stride(conditional) == 0
  {
    if Stride(conditional) <= n {
      WholeIsDivisible(n - Stride(conditional), conditional);
      if conditional {
        assert (n - 12) % 12 == n % 12;
      } else {
        assert (n - 6) % 6 == n % 6;
      }
    }
  }

  function Twice(s: seq<real>): seq<real> {
    s + s
  }

  // What the record of one line contributes.
  function Record(v: seq<real>, conditional: bool): Geometry
    requires |v| == Stride(conditional)
  {
    if conditional then
      Geometry("", true, v[0..6], Twice(v[6..9]), Twice(v[9..12]), Twice([v[3] - v[0], v[4] - v[1], v[5] - v[2]]))
    else Geometry("", false, v[0..6], [], [], [])
  }

  function Append(a: Geometry, b: Geometry): Geometry {
    Geometry(a.color, a.conditional, a.positions + b.positions, a.control0 + b.control0, a.control1 + b.control1,
             a.directions + b.directions)
  }

  // The records from the front, after what was read before.
  function Records(start: Geometry, v: seq<real>, conditional: bool): Geometry
    decreases |v|
  {
    var stride := Stride(conditional);
    if |v| < stride then start
    else Records(Append(start, Record(v[..stride], conditional)), v[stride..], conditional)
  }

  function EmptyGeometry(g: LineGroup): Geometry {
    Geometry(g.color, g.conditional, [], [], [], [])
  }

  // The three attributes of a conditional line, once for each endpoint.
  method PushTwice(attribute: seq<real>, value: seq<real>) returns (r: seq<real>)
    ensures r == attribute + Twice(value)
  {
    r := attribute;
    for endpoint := 0 to 2
      invariant r == attribute + Times(endpoint, value)
    {
      r := r + value;
    }
  }

  method ReadRecord(start: Geometry, v: seq<real>, i: nat, conditional: bool) returns (r: Geometry)
    requires i + Stride(conditional) <= |v|
    ensures r == Append(start, Record(v[i..i + Stride(conditional)], conditional))
  {
    RecordSlices(v, i, conditional);
    var control0, control1, directions := start.control0, start.control1, start.directions;
    if conditional {
      control0 := PushTwice(control0, v[i + 6..i + 9]);
      control1 := PushTwice(control1, v[i + 9..i + 12]);
      directions := PushTwice(directions, [v[i + 3] - v[i], v[i + 4] - v[i + 1], v[i + 5] - v[i + 2]]);
    }
    r := Geometry(start.color, start.conditional, start.positions + v[i..i + 6], control0, control1, directions);
  }

  lemma RecordsStep(start: Geometry, v: seq<real>, i: nat, conditional: bool)
    requires i + Stride(conditional) <= |v|
    ensures Records(start, v[i..], conditional)
         == Records(Append(start, Record(v[i..i + Stride(conditional)], conditional)), v[i + Stride(conditional)..], conditional)
  {
    RecordSlices(v, i, conditional);
  }

  method ReadGroup(g: LineGroup) returns (r: Geometry)
    requires Readable(g)
    ensures r == Records(EmptyGeometry(g), g.vertices, g.conditional)
  {
    var stride, v := Stride(g.conditional), g.vertices;
    r := EmptyGeometry(g);
    var i := 0;
    WholeIsDivisible(|v|, g.conditional);
    assert v[0..] == v;
    while i < |v|
      invariant 0 <= i <= |v| && Whole(|v| - i, g.conditional)
      invariant Records(r, v[i..], g.conditional) == Records(EmptyGeometry(g), v, g.conditional)
      decreases |v| - i
    {
      RecordsStep(r, v, i, g.conditional);
      r := ReadRecord(r, v, i, g.conditional);
      i := i + stride;
    }
  }

  function Times(n: nat, s: seq<real>): seq<real> {
    if n == 0 then [] else if n == 1 then s else Twice(s)
  }

  lemma RecordSlices(v: seq<real>, i: nat, conditional: bool)
    requires i + Stride(conditional) <= |v|
    ensures v[i..][..Stride(conditional)] == v[i..i + Stride(conditional)]
    ensures v[i..][Stride(conditional)..] == v[i + Stride(conditional)..]
    ensures Record(v[i..i + Stride(conditional)], conditional)
         == if conditional then
              Geometry("", true, v[i..i + 6], Twice(v[i + 6..i + 9]), Twice(v[i + 9..i + 12]),
                       Twice([v[i + 3] - v[i], v[i + 4] - v[i + 1], v[i + 5] - v[i + 2]]))
            else Geometry("", false, v[i..i + 6], [], [], [])
  {
    var r := v[i..i + Stride(conditional)];
    assert r[0..6] == v[i..i + 6];
    if conditional {
      assert r[6..9] == v[i + 6..i + 9] && r[9..12] == v[i + 9..i + 12];
    }
  }

  function NonEmpty(groups: seq<LineGroup>): seq<LineGroup> {
    if groups == [] then []
    else
      var last := groups[|groups| - 1];
      NonEmpty(groups[..|groups| - 1]) + (if last.vertices == [] then [] else [last])
  }

  // A group the reader cannot use stops it; an empty one is passed over.
  method PrepareTemplate(groups: seq<LineGroup>) returns (r: Option<seq<Geometry>>)
    ensures r.Some? <==> forall g | g in groups :: |g.vertices| % (if g.conditional then 12 else 6) == 0
    ensures r.Some? ==>
              var shown := NonEmpty(groups);
              && |r.value| == |shown|
              && forall i :: 0 <= i < |shown| ==> r.value[i] == Records(EmptyGeometry(shown[i]), shown[i].vertices, shown[i].conditional)
  {
    var nodes := [];
    for i := 0 to |groups|
      invariant forall j :: 0 <= j < i ==> Readable(groups[j])
      invariant var shown := NonEmpty(groups[..i]);
                && |nodes| == |shown|
                && forall j :: 0 <= j < |shown| ==> nodes[j] == Records(EmptyGeometry(shown[j]), shown[j].vertices, shown[j].conditional)
    {
      assert groups[..i + 1][..i] == groups[..i];
      var g := groups[i];
      if |g.vertices| % Stride(g.conditional) != 0 {
        assert g in groups && !Readable(g);
        return None;
      }
      if |g.vertices| == 0 {
        continue;
      }
      var geometry := ReadGroup(g);
      nodes := nodes + [geometry];
    }
    assert groups[..|groups|] == groups;
    r := Some(nodes);
  }

  // ---- Reading back what was emitted ----

  predicate WellFormedLine(l: RenderLine) {
    |l.points| == if l.conditional then 4 else 2
  }

  /** Every line the expansion of a part appends has its two endpoints, and its two controls if conditional. */
  lemma {:induction false} RenderedLinesWellFormed(s: Scene, matrix: Transform, material: Context)
    requires Drawable(s)
    ensures forall l | l in Render(s, matrix, material).lines :: WellFormedLine(l)
  {
    match s
    case End =>
    case Draw(line, rest) =>
      RenderedLinesWellFormed(rest, matrix, material);
    case Include(_, color, transform, child, rest) =>
      RenderedLinesWellFormed(child, Composed(matrix, transform), ChildMaterial(color, material));
      RenderedLinesWellFormed(rest, matrix, material);
  }

  // The segment of a line: its endpoints, with its controls and direction once for each endpoint.
  function Segment(l: RenderLine): Geometry
    requires WellFormedLine(l)
  {
    var p, q := l.points[0], l.points[1];
    if l.conditional then
      Geometry("", true, [p.x, p.y, p.z, q.x, q.y, q.z],
               Twice([l.points[2].x, l.points[2].y, l.points[2].z]), Twice([l.points[3].x, l.points[3].y, l.points[3].z]),
               Twice([q.x - p.x, q.y - p.y, q.z - p.z]))
    else Geometry("", false, [p.x, p.y, p.z, q.x, q.y, q.z], [], [], [])
  }

  function Segments(start: Geometry, lines: seq<RenderLine>): Geometry
    requires forall l | l in lines :: WellFormedLine(l)
  {
    if lines == [] then start else Append(Segments(start, lines[..|lines| - 1]), Segment(lines[|lines| - 1]))
  }

  lemma CoordinatesAppend(ps: seq<Vec3>, p: Vec3)
    ensures Coordinates(ps + [p]) == Coordinates(ps) + [p.x, p.y, p.z]
  {
    assert (ps + [p])[..|ps|] == ps;
  }

  lemma CoordinatesOfTwo(p: Vec3, q: Vec3)
    ensures Coordinates([p, q]) == [p.x, p.y, p.z, q.x, q.y, q.z]
  {
    CoordinatesAppend([], p);
    assert [] + [p] == [p] && [p] + [q] == [p, q];
    CoordinatesAppend([p], q);
  }

  lemma CoordinatesOfFour(p: Vec3, q: Vec3, u: Vec3, v: Vec3)
    ensures Coordinates([p, q, u, v]) == [p.x, p.y, p.z, q.x, q.y, q.z, u.x, u.y, u.z, v.x, v.y, v.z]
  {
    CoordinatesOfTwo(p, q);
    CoordinatesAppend([p, q], u);
    assert [p, q] + [u] == [p, q, u] && [p, q, u] + [v] == [p, q, u, v];
    CoordinatesAppend([p, q, u], v);
  }

  lemma RecordIsSegment(l: RenderLine)
    requires WellFormedLine(l)
    ensures |Coordinates(l.points)| == Stride(l.conditional)
    ensures Record(Coordinates(l.points), l.conditional) == Segment(l)
  {
    var ps := l.points;
    if l.conditional {
      assert ps == [ps[0], ps[1], ps[2], ps[3]];
      CoordinatesOfFour(ps[0], ps[1], ps[2], ps[3]);
      var c := Coordinates(ps);
      assert c[0..6] == [ps[0].x, ps[0].y, ps[0].z, ps[1].x, ps[1].y, ps[1].z];
      assert c[6..9] == [ps[2].x, ps[2].y, ps[2].z] && c[9..12] == [ps[3].x, ps[3].y, ps[3].z];
    } else {
      assert ps == [ps[0], ps[1]];
      CoordinatesOfTwo(ps[0], ps[1]);
      assert Coordinates(ps)[0..6] == Coordinates(ps);
    }
  }

  // A further whole record at the end is read last.
  lemma {:induction false} RecordsAppend(start: Geometry, v: seq<real>, last: seq<real>, conditional: bool)
    requires Whole(|v|, conditional) && |last| == Stride(conditional)
    ensures Records(start, v + last, conditional) == Append(Records(start, v, conditional), Record(last, conditional))
    decreases |v|
  {
    var stride := Stride(conditional);
    if |v| == 0 {
      assert v + last == last && last[..stride] == last && last[stride..] == [];
    } else {
      assert (v + last)[..stride] == v[..stride] && (v + last)[stride..] == v[stride..] + last;
      RecordsAppend(Append(start, Record(v[..stride], conditional)), v[stride..], last, conditional);
    }
  }

  lemma {:induction false} RecordsAreSegments(start: Geometry, lines: seq<RenderLine>, conditional: bool)
    requires forall l | l in lines :: WellFormedLine(l) && l.conditional == conditional
    ensures Whole(|Vertices(lines)|, conditional) && |lines| <= |Vertices(lines)|
    ensures Records(start, Vertices(lines), conditional) == Segments(start, lines)
  {
    if lines != [] {
      var init, last := lines[..|lines| - 1], lines[|lines| - 1];
      RecordsAreSegments(start, init, conditional);
      RecordIsSegment(last);
      assert |Vertices(lines)| - Stride(conditional) == |Vertices(init)|;
      RecordsAppend(start, Vertices(init), Coordinates(last.points), conditional);
    }
  }

  // ---- In plain numbers ----

  // The colour a group gets from a line of this material: two names, a colour of the table, or one of two greys.
  ghost predicate HasColor(m: Material, palette: Palette, color: string) {
    match m
    case Current => color == "current"
    case EdgeCurrent => color == "edge-current"
    case Direct(rgb) => color == "#" + palette.hex(rgb)
    case Fixed(code) =>
      (code in palette.colors && color == palette.colors[code].value && color != "")
      || ((code !in palette.colors || palette.colors[code].value == "") && color == "#b7c0c8")
    case EdgeFixed(code) =>
      (code in palette.colors && color == palette.colors[code].edge && "#" <= color)
      || ((code !in palette.colors || !("#" <= palette.colors[code].edge)) && color == "#333333")
  }

  // Numbers 6i to 6i + 5 are these two triples.
  ghost predicate SixAt(v: seq<real>, i: nat, p: Vec3, q: Vec3) {
    6 * i + 6 <= |v| && v[6 * i..6 * i + 6] == [p.x, p.y, p.z, q.x, q.y, q.z]
  }

  ghost predicate SegmentAt(g: Geometry, i: nat, l: RenderLine)
    requires WellFormedLine(l)
  {
    var p, q := l.points[0], l.points[1];
    var d := Vec3(q.x - p.x, q.y - p.y, q.z - p.z);
    && SixAt(g.positions, i, p, q)
    && (l.conditional ==>
          && SixAt(g.control0, i, l.points[2], l.points[2]) && SixAt(g.control1, i, l.points[3], l.points[3])
          && SixAt(g.directions, i, d, d))
  }

  /** Line i has its endpoints, and if conditional its controls and its direction for each of them, at six numbers each. */
  ghost predicate ShowsLines(g: Geometry, lines: seq<RenderLine>, conditional: bool)
    requires forall l | l in lines :: WellFormedLine(l)
  {
    && |g.positions| == 6 * |lines|
    && |g.control0| == |g.control1| == |g.directions| == (if conditional then 6 * |lines| else 0)
    && forall i :: 0 <= i < |lines| ==> SegmentAt(g, i, lines[i])
  }

  lemma SixStays(v: seq<real>, i: nat, p: Vec3, q: Vec3, more: seq<real>)
    requires SixAt(v, i, p, q)
    ensures SixAt(v + more, i, p, q)
  {
    assert (v + more)[6 * i..6 * i + 6] == v[6 * i..6 * i + 6];
  }

  lemma SixLast(v: seq<real>, n: nat, p: Vec3, q: Vec3)
    requires |v| == 6 * n
    ensures SixAt(v + [p.x, p.y, p.z, q.x, q.y, q.z], n, p, q)
  {
  }

  lemma SegmentStays(g: Geometry, i: nat, l: RenderLine, more: Geometry)
    requires WellFormedLine(l) && SegmentAt(g, i, l)
    ensures SegmentAt(Append(g, more), i, l)
  {
    var p, q := l.points[0], l.points[1];
    var d := Vec3(q.x - p.x, q.y - p.y, q.z - p.z);
    SixStays(g.positions, i, p, q, more.positions);
    if l.conditional {
      SixStays(g.control0, i, l.points[2], l.points[2], more.control0);
      SixStays(g.control1, i, l.points[3], l.points[3], more.control1);
      SixStays(g.directions, i, d, d, more.directions);
    }
  }

  lemma SegmentLast(g: Geometry, n: nat, l: RenderLine)
    requires WellFormedLine(l) && |g.positions| == 6 * n
    requires l.conditional ==> |g.control0| == |g.control1| == |g.directions| == 6 * n
    ensures SegmentAt(Append(g, Segment(l)), n, l)
  {
    var p, q := l.points[0], l.points[1];
    var d := Vec3(q.x - p.x, q.y - p.y, q.z - p.z);
    SixLast(g.positions, n, p, q);
    if l.conditional {
      SixLast(g.control0, n, l.points[2], l.points[2]);
      SixLast(g.control1, n, l.points[3], l.points[3]);
      SixLast(g.directions, n, d, d);
    }
  }

  lemma {:induction false} SegmentsShow(color: string, conditional: bool, lines: seq<RenderLine>)
    requires forall l | l in lines :: WellFormedLine(l) && l.conditional == conditional
    ensures var r := Segments(Geometry(color, conditional, [], [], [], []), lines);
            r.color == color && r.conditional == conditional && ShowsLines(r, lines, conditional)
  {
    if lines != [] {
      var init, last := lines[..|lines| - 1], lines[|lines| - 1];
      SegmentsShow(color, conditional, init);
      var before := Segments(Geometry(color, conditional, [], [], [], []), init);
      forall i | 0 <= i < |lines| ensures SegmentAt(Append(before, Segment(last)), i, lines[i]) {
        if i < |init| {
          assert SegmentAt(before, i, init[i]);
          SegmentStays(before, i, init[i], Segment(last));
        } else {
          SegmentLast(before, |init|, last);
        }
      }
    }
  }

  lemma ColorExact(m: Material, palette: Palette, color: string)
    ensures LineColor(m, palette) == color <==> HasColor(m, palette, color)
  {
  }

  lemma {:induction false} SelectInOrder(lines: seq<RenderLine>, idOf: RenderLine -> GroupId, id: GroupId) returns (at: seq<nat>)
    ensures Thinned(lines, Select(lines, idOf, id), at)
    ensures forall j :: 0 <= j < |lines| ==> (j in at <==> idOf(lines[j]) == id)
  {
    at := [];
    if lines != [] {
      var n := |lines| - 1;
      at := SelectInOrder(lines[..n], idOf, id);
      LastApart(lines);
      ThinnedAppend(lines[..n], Select(lines[..n], idOf, id), at, lines[n]);
      RisingAppend(at, n);
      if idOf(lines[n]) == id {
        at := at + [n];
      }
    }
  }

  /**
   The reader accepts every emitted group and rebuilds from it exactly the lines
   of that colour and kind, in their original order.
   */
  lemma EmittedReadsBack(groups: seq<LineGroup>, lines: seq<RenderLine>, palette: Palette, g: LineGroup)
    returns (at: seq<nat>, own: seq<RenderLine>)
    requires Emitted(groups, lines, Id(palette)) && g in groups
    requires forall l | l in lines :: WellFormedLine(l)
    ensures Readable(g) && g.vertices != []
    ensures Thinned(lines, own, at)
    ensures forall j :: 0 <= j < |lines| ==>
              (j in at <==> HasColor(lines[j].material, palette, g.color) && lines[j].conditional == g.conditional)
    ensures forall l | l in own :: WellFormedLine(l)
    ensures var r := Records(EmptyGeometry(g), g.vertices, g.conditional);
            r.color == g.color && r.conditional == g.conditional && ShowsLines(r, own, g.conditional)
  {
    var id := (g.color, g.conditional);
    own := Select(lines, Id(palette), id);
    SelectIsPart(lines, Id(palette), id);
    at := SelectInOrder(lines, Id(palette), id);
    forall j | 0 <= j < |lines|
      ensures Id(palette)(lines[j]) == id <==> HasColor(lines[j].material, palette, g.color) && lines[j].conditional == g.conditional
    {
      ColorExact(lines[j].material, palette, g.color);
    }
    RecordsAreSegments(EmptyGeometry(g), own, g.conditional);
    SegmentsShow(g.color, g.conditional, own);
    WholeIsDivisible(|g.vertices|, g.conditional);
  }
}
