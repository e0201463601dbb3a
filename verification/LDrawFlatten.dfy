/**
 The depth-first expansion of a part: `Expand` is its specification on values,
 `Archive.Flatten` the recursion over the shared stack, dependency set and
 output lists.
 */
module LDrawFlatten {
  import opened Wrappers
  import opened LDrawGeometry
  import opened LDrawSource
  import opened LDrawScene
  import opened LDrawDrawing

  // Unreadable stands for a file that cannot be opened or read, or exceeds the size limit.
  datatype File = Readable(rows: seq<Row>) | Unreadable

  datatype Library = Library(files: map<string, File>, num: Numerals)

  datatype FlattenError =
    | Cyclic(path: string)
    | NotFound(path: string)
    | ReadFailed(path: string)
    | ParseFailed(path: string, cause: ParseError)
    | BadReference(path: string, reference: string)
    | NoTriangles

  function Load(lib: Library, path: string): (r: Result<seq<ParsedLine>, FlattenError>)
    ensures r.Ok? ==> path in lib.files && forall line | line in r.value :: WellFormed(line)
  {
    if path !in lib.files then Err(NotFound(path))
    else
      match lib.files[path]
      case Unreadable => Err(ReadFailed(path))
      case Readable(rows) =>
        ParsedLinesAreWellFormed(rows, 1, lib.num);
        match ParseRows(rows, 1, lib.num)
        case Err(e) => Err(ParseFailed(path, e))
        case Ok(lines) => Ok(lines)
  }

  function Resolve(lib: Library, line: ParsedLine): Option<string> {
    ResolveReference(line.reference, lib.files.Keys)
  }

  // ---- Specification of the expansion ----

  function Expand(lib: Library, path: string, stack: set<string>): (r: Result<Scene, FlattenError>)
    ensures r.Ok? ==> Drawable(r.value)
    decreases lib.files.Keys - stack, 0
  {
    if path in stack then Err(Cyclic(path))
    else
      match Load(lib, path)
      case Err(e) => Err(e)
      case Ok(lines) => ExpandLines(lib, path, lines, stack + {path})
  }

  function ExpandLines(lib: Library, path: string, lines: seq<ParsedLine>, stack: set<string>): (r: Result<Scene, FlattenError>)
    requires forall line | line in lines :: WellFormed(line)
    ensures r.Ok? ==> Drawable(r.value)
    decreases lib.files.Keys - stack, |lines| + 2
  {
    if lines == [] then Ok(End)
    else ExpandLine(lib, path, lines[0], ExpandLines(lib, path, lines[1..], stack), stack)
  }

  // A line in front of the expanded rest of its file. An error in the line comes first.
  function ExpandLine(lib: Library, path: string, line: ParsedLine, rest: Result<Scene, FlattenError>, stack: set<string>)
    : (r: Result<Scene, FlattenError>)
    requires WellFormed(line)
    requires rest.Ok? ==> Drawable(rest.value)
    ensures r.Ok? ==> Drawable(r.value)
    decreases lib.files.Keys - stack, 1
  {
    if line.kind == '1' then
      match Resolve(lib, line)
      case None => Err(BadReference(path, line.reference))
      case Some(childPath) =>
        var child :- Expand(lib, childPath, stack);
        var after :- rest;
        Ok(Include(childPath, line.color, line.transform, child, after))
    else
      var after :- rest;
      Ok(Draw(line, after))
  }

  // The scene holds the file's lines one for one: references with the scenes of the files they resolve to.
  ghost predicate Mirrors(lib: Library, path: string, s: Scene)
    decreases s, 1
  {
    Load(lib, path).Ok? && MirrorsLines(lib, Load(lib, path).value, s)
  }

  ghost predicate MirrorsLines(lib: Library, lines: seq<ParsedLine>, s: Scene)
    decreases s, 0
  {
    match s
    case End => lines == []
    case Draw(line, rest) => lines != [] && line == lines[0] && line.kind != '1' && MirrorsLines(lib, lines[1..], rest)
    case Include(path, color, transform, child, rest) =>
      && lines != [] && lines[0].kind == '1' && Resolve(lib, lines[0]) == Some(path)
      && color == lines[0].color && transform == lines[0].transform
      && Mirrors(lib, path, child) && MirrorsLines(lib, lines[1..], rest)
  }

  /** What expansion gives is the part's files, line for line. */
  lemma {:induction false} ExpandMirrors(lib: Library, path: string, stack: set<string>)
    requires Expand(lib, path, stack).Ok?
    ensures Mirrors(lib, path, Expand(lib, path, stack).value)
    decreases lib.files.Keys - stack, 0
  {
    ExpandMirrorsLines(lib, path, Load(lib, path).value, stack + {path});
  }

  lemma {:induction false} ExpandMirrorsLines(lib: Library, path: string, lines: seq<ParsedLine>, stack: set<string>)
    requires forall line | line in lines :: WellFormed(line)
    requires ExpandLines(lib, path, lines, stack).Ok?
    ensures MirrorsLines(lib, lines, ExpandLines(lib, path, lines, stack).value)
    decreases lib.files.Keys - stack, |lines| + 2
  {
    if lines != [] {
      ExpandMirrorsLines(lib, path, lines[1..], stack);
      if lines[0].kind == '1' {
        ExpandMirrors(lib, Resolve(lib, lines[0]).value, stack);
      }
    }
  }

  // The files a scene includes, directly or through other files.
  function Included(s: Scene): set<string> {
    match s
    case End => {}
    case Draw(_, rest) => Included(rest)
    case Include(path, _, _, child, rest) => {path} + Included(child) + Included(rest)
  }

  // ---- The reference graph ----

  function Refs(lib: Library, path: string): set<string> {
    match Load(lib, path)
    case Err(_) => {}
    case Ok(lines) => set line | line in lines && line.kind == '1' && Resolve(lib, line).Some? :: Resolve(lib, line).value
  }

  /** The file is present, parses, and every reference in it resolves. */
  predicate Good(lib: Library, path: string) {
    match Load(lib, path)
    case Err(_) => false
    case Ok(lines) => forall line | line in lines && line.kind == '1' :: Resolve(lib, line).Some?
  }

  // A walk along references, given by the files it visits.
  ghost predicate Chain(lib: Library, c: seq<string>, from: string, to: string) {
    && 0 < |c| && c[0] == from && c[|c| - 1] == to
    && forall i :: 0 <= i < |c| - 1 ==> c[i + 1] in Refs(lib, c[i])
  }

  ghost predicate Reachable(lib: Library, from: string, to: string) {
    exists c :: Chain(lib, c, from, to)
  }

  ghost predicate OnCycle(lib: Library, path: string) {
    exists c :: Chain(lib, c, path, path) && 1 < |c|
  }

  lemma ChainTail(lib: Library, c: seq<string>, from: string, to: string)
    requires Chain(lib, c, from, to) && 1 < |c|
    ensures Chain(lib, c[1..], c[1], to) && c[1] in Refs(lib, from)
  {
  }

  lemma ChainExtend(lib: Library, path: string, c: seq<string>, from: string, to: string)
    requires Chain(lib, c, from, to) && from in Refs(lib, path)
    ensures Chain(lib, [path] + c, path, to)
  {
  }

  // ---- Expansion against the graph ----

  lemma {:induction false} EveryChildExpands(lib: Library, path: string, lines: seq<ParsedLine>, stack: set<string>, line: ParsedLine)
    requires forall l | l in lines :: WellFormed(l)
    requires ExpandLines(lib, path, lines, stack).Ok?
    requires line in lines && line.kind == '1'
    ensures Resolve(lib, line).Some?
    ensures Expand(lib, Resolve(lib, line).value, stack).Ok?
    ensures var scene := ExpandLines(lib, path, lines, stack).value;
            var child := Resolve(lib, line).value;
            {child} + Included(Expand(lib, child, stack).value) <= Included(scene)
  {
    if line != lines[0] {
      EveryChildExpands(lib, path, lines[1..], stack, line);
    }
  }

  // An expanded file is off the stack, and so is, in turn, every file a walk from it visits.
  lemma {:induction false} WalkExpanded(lib: Library, path: string, stack: set<string>, c: seq<string>, to: string)
      returns (below: set<string>)
    requires Expand(lib, path, stack).Ok?
    requires Chain(lib, c, path, to)
    ensures stack <= below && Expand(lib, to, below).Ok?
    ensures to !in stack && Good(lib, to)
    ensures to in {path} + Included(Expand(lib, path, stack).value)
    ensures 1 < |c| ==> path in below
    decreases |c|
  {
    var lines := Load(lib, path).value;
    forall line | line in lines && line.kind == '1' ensures Resolve(lib, line).Some? {
      EveryChildExpands(lib, path, lines, stack + {path}, line);
    }
    if |c| == 1 {
      below := stack;
    } else {
      ChainTail(lib, c, path, to);
      var line :| line in lines && line.kind == '1' && Resolve(lib, line) == Some(c[1]);
      EveryChildExpands(lib, path, lines, stack + {path}, line);
      below := WalkExpanded(lib, c[1], stack + {path}, c[1..], to);
    }
  }

  lemma NoCycleBelow(lib: Library, path: string, stack: set<string>)
    requires Expand(lib, path, stack).Ok?
    ensures !OnCycle(lib, path)
  {
    if OnCycle(lib, path) {
      var c :| Chain(lib, c, path, path) && 1 < |c|;
      var below := WalkExpanded(lib, path, stack, c, path);
      assert false;
    }
  }

  // A failed expansion points at its cause.
  lemma {:induction false} FailureCause(lib: Library, path: string, stack: set<string>) returns (c: seq<string>, to: string)
    requires Expand(lib, path, stack).Err?
    ensures Chain(lib, c, path, to)
    ensures !Good(lib, to) || to in stack || OnCycle(lib, to)
    decreases lib.files.Keys - stack, 0
  {
    if path in stack || Load(lib, path).Err? || !Good(lib, path) {
      c, to := [path], path;
    } else {
      c, to := LinesFailureCause(lib, path, Load(lib, path).value, Load(lib, path).value, stack + {path});
      if to == path && 1 < |c| {
        assert OnCycle(lib, path);
      }
    }
  }

  lemma {:induction false} LinesFailureCause(lib: Library, path: string, lines: seq<ParsedLine>, all: seq<ParsedLine>, stack: set<string>)
      returns (c: seq<string>, to: string)
    requires Load(lib, path) == Ok(all) && Good(lib, path)
    requires forall line | line in lines :: line in all
    requires ExpandLines(lib, path, lines, stack).Err?
    ensures Chain(lib, c, path, to) && 1 < |c|
    ensures !Good(lib, to) || to in stack || OnCycle(lib, to)
    decreases lib.files.Keys - stack, |lines|
  {
    var first := lines[0];
    if first.kind == '1' && Expand(lib, Resolve(lib, first).value, stack).Err? {
      var child := Resolve(lib, first).value;
      var below;
      below, to := FailureCause(lib, child, stack);
      assert child in Refs(lib, path);
      ChainExtend(lib, path, below, child, to);
      c := [path] + below;
    } else {
      c, to := LinesFailureCause(lib, path, lines[1..], all, stack);
    }
  }

  /**
   Expansion succeeds exactly when every file reachable from the part is present,
   parses, has only resolvable references, is not being expanded already, and
   lies on no reference cycle. A file shared by several references is no obstacle.
   */
  lemma ExpandsExactlyWhenSound(lib: Library, path: string, stack: set<string>)
    ensures Expand(lib, path, stack).Ok?
       <==> forall q | Reachable(lib, path, q) :: Good(lib, q) && q !in stack && !OnCycle(lib, q)
  {
    if Expand(lib, path, stack).Ok? {
      forall q | Reachable(lib, path, q) ensures Good(lib, q) && q !in stack && !OnCycle(lib, q) {
        var c :| Chain(lib, c, path, q);
        var below := WalkExpanded(lib, path, stack, c, q);
        NoCycleBelow(lib, q, below);
      }
    } else {
      var c, to := FailureCause(lib, path, stack);
      assert Reachable(lib, path, to);
    }
  }

  /** The dependencies a successful expansion records are exactly the reachable files. */
  lemma DependenciesAreReachable(lib: Library, path: string, stack: set<string>, q: string)
    requires Expand(lib, path, stack).Ok?
    ensures q in {path} + Included(Expand(lib, path, stack).value) <==> Reachable(lib, path, q)
  {
    if Reachable(lib, path, q) {
      var c :| Chain(lib, c, path, q);
      var below := WalkExpanded(lib, path, stack, c, q);
    }
    if q == path {
      assert Chain(lib, [path], path, q);
    } else if q in Included(Expand(lib, path, stack).value) {
      var lines := Load(lib, path).value;
      var c := IncludedByChain(lib, path, lines, lines, stack + {path}, q);
    }
  }

  lemma {:induction false} IncludedByChain(lib: Library, path: string, lines: seq<ParsedLine>, all: seq<ParsedLine>,
                                           stack: set<string>, q: string) returns (c: seq<string>)
    requires Load(lib, path) == Ok(all)
    requires forall line | line in lines :: line in all
    requires ExpandLines(lib, path, lines, stack).Ok?
    requires q in Included(ExpandLines(lib, path, lines, stack).value)
    ensures Chain(lib, c, path, q)
    decreases lib.files.Keys - stack, |lines|
  {
    var first := lines[0];
    if first.kind == '1' {
      var child := Resolve(lib, first).value;
      assert child in Refs(lib, path);
      if q == child {
        c := [path, child];
        return;
      }
      if q in Included(Expand(lib, child, stack).value) {
        var below := IncludedByChain(lib, child, Load(lib, child).value, Load(lib, child).value, stack + {child}, q);
        ChainExtend(lib, path, below, child, q);
        c := [path] + below;
        return;
      }
    }
    c := IncludedByChain(lib, path, lines[1..], all, stack, q);
  }

  /** Everything reachable from the file is present and parses, and no reference cycle is reachable. */
  ghost predicate Compilable(lib: Library, root: string) {
    forall q | Reachable(lib, root, q) :: Good(lib, q) && !OnCycle(lib, q)
  }

  // The part's drawing, primitive by primitive, at the identity and with the two current colours.
  ghost function PartDrawing(lib: Library, root: string): Drawn {
    var scene := Expand(lib, root, {});
    if scene.Ok? then PlaceAll(Occurrences(scene.value, []), Identity(), TOP) else NOTHING
  }

  ghost predicate AreReachable(lib: Library, root: string, paths: set<string>) {
    forall q :: q in paths <==> Reachable(lib, root, q)
  }

  // The drawing shows, one after another, the primitives of the part's files as those files say.
  ghost predicate DrawsPart(lib: Library, root: string, d: Drawn) {
    exists s, ds, triangles, lines ::
      && Mirrors(lib, root, s) && Drawable(s)
      && ShowsAll(s, Identity(), Context(Current, EdgeCurrent), d, ds, triangles, lines)
  }

  lemma PartIsDrawn(lib: Library, root: string)
    requires Expand(lib, root, {}).Ok?
    ensures DrawsPart(lib, root, Render(Expand(lib, root, {}).value, Identity(), TOP))
  {
    ExpandMirrors(lib, root, {});
    var ds, triangles, lines := RenderShows(Expand(lib, root, {}).value, Identity(), TOP);
  }

  lemma WholePart(lib: Library, root: string)
    ensures Expand(lib, root, {}).Ok? <==> Compilable(lib, root)
    ensures Compilable(lib, root) ==>
              var scene := Expand(lib, root, {}).value;
              && Then(NOTHING, Render(scene, Identity(), TOP)) == PartDrawing(lib, root)
              && AreReachable(lib, root, {} + {root} + Included(scene))
              && DrawsPart(lib, root, PartDrawing(lib, root))
  {
    ExpandsExactlyWhenSound(lib, root, {});
    if Compilable(lib, root) {
      var scene := Expand(lib, root, {}).value;
      RenderIsByOccurrence(scene, Identity(), TOP);
      PartIsDrawn(lib, root);
      ThenAssociates(Render(scene, Identity(), TOP), NOTHING, NOTHING);
      forall q ensures q in {} + {root} + Included(scene) <==> Reachable(lib, root, q) {
        DependenciesAreReachable(lib, root, {}, q);
      }
    }
  }

  // ---- The compiler ----

  // The recursion reports what the specification computes.
  ghost predicate SameOutcome(r: Result<(), FlattenError>, e: Result<Scene, FlattenError>) {
    if r.Err? then e.Err? && e.error == r.error else e.Ok?
  }

  // What is left to draw, `rest`, completes what was drawn so far to the whole file.
  ghost predicate Completes(sofar: Drawn, deps: set<string>, rest: Scene, all: Drawn, allDeps: set<string>,
                            matrix: Transform, material: Context)
    requires Drawable(rest)
  {
    all == Then(sofar, Render(rest, matrix, material)) && allDeps == deps + Included(rest)
  }

  lemma CompletesDraw(sofar: Drawn, deps: set<string>, line: ParsedLine, rest: Scene, all: Drawn, allDeps: set<string>,
                      matrix: Transform, material: Context)
    requires Drawable(Draw(line, rest))
    requires Completes(sofar, deps, Draw(line, rest), all, allDeps, matrix, material)
    ensures Completes(Then(sofar, Primitive(line.kind, Points(matrix, line.points), GeometryMaterial(line.color, material))),
                      deps, rest, all, allDeps, matrix, material)
  {
    ThenAssociates(sofar, Primitive(line.kind, Points(matrix, line.points), GeometryMaterial(line.color, material)),
                   Render(rest, matrix, material));
  }

  lemma CompletesInclude(sofar: Drawn, deps: set<string>, path: string, color: int, transform: Transform, child: Scene,
                         rest: Scene, all: Drawn, allDeps: set<string>, matrix: Transform, material: Context)
    requires Drawable(Include(path, color, transform, child, rest))
    requires Completes(sofar, deps, Include(path, color, transform, child, rest), all, allDeps, matrix, material)
    ensures Completes(Then(sofar, Render(child, Composed(matrix, transform), ChildMaterial(color, material))),
                      deps + {path} + Included(child), rest, all, allDeps, matrix, material)
  {
    ThenAssociates(sofar, Render(child, Composed(matrix, transform), ChildMaterial(color, material)),
                   Render(rest, matrix, material));
  }

  /** The maps and slices that one compilation shares between all its calls. */
  class Output {
    var stack: set<string>
    var deps: set<string>
    var triangles: seq<Triangle>
    var lines: seq<RenderLine>

    ghost function All(): Drawn
      reads this
    {
      Drawn(triangles, lines)
    }

    constructor ()
      ensures stack == {} && deps == {} && All() == NOTHING
    {
      stack, deps, triangles, lines := {}, {}, [], [];
    }

    method Append(line: ParsedLine, matrix: Transform, material: Context)
      requires WellFormed(line) && line.kind != '1'
      modifies this`triangles, this`lines
      ensures All() == Then(old(All()), Primitive(line.kind, Points(matrix, line.points), GeometryMaterial(line.color, material)))
      ensures exists d ::
                && Shows(Occurrence([], line), d, matrix, material)
                && triangles == old(triangles) + d.triangles && lines == old(lines) + d.lines
    {
      var p := Points(matrix, line.points);
      var name := GeometryMaterial(line.color, material);
      PrimitiveShows(line, matrix, material);
      match line.kind {
        case '2' =>
          lines := lines + [RenderLine(p, name, false)];
        case '5' =>
          lines := lines + [RenderLine(p, name, true)];
        case '3' =>
          triangles := triangles + [Triangle(p[0], p[1], p[2], name)];
        case _ =>
          triangles := triangles + [Triangle(p[0], p[1], p[2], name), Triangle(p[0], p[2], p[3], name)];
      }
    }
  }

  class Archive {
    const lib: Library
    var cache: map<string, seq<ParsedLine>>

    ghost predicate Valid()
      reads this
    {
      forall path | path in cache :: Load(lib, path) == Ok(cache[path])
    }

    constructor (lib: Library)
      ensures Valid() && this.lib == lib
    {
      this.lib := lib;
      cache := map[];
    }

    method Source(name: string) returns (r: Result<seq<ParsedLine>, FlattenError>)
      requires Valid()
      modifies this`cache
      ensures Valid()
      ensures r == Load(lib, NormalizeArchivePath(name))
    {
      var path := NormalizeArchivePath(name);
      if path in cache {
        return Ok(cache[path]);
      }
      if path !in lib.files {
        return Err(NotFound(path));
      }
      match lib.files[path] {
        case Unreadable =>
          return Err(ReadFailed(path));
        case Readable(rows) =>
          var parsed := ParseSource(rows, lib.num);
          if parsed.Err? {
            return Err(ParseFailed(path, parsed.error));
          }
          cache := cache[path := parsed.value];
          return Ok(parsed.value);
      }
    }

    /**
     Appends what the file draws under the matrix and colour context. The stack
     is what it was before the call on success and on error.
     */
    method Flatten(path: string, matrix: Transform, material: Context, o: Output) returns (r: Result<(), FlattenError>)
      requires Valid() && Canonical(path)
      modifies this`cache, o
      decreases lib.files.Keys - o.stack, 0
      ensures Valid()
      ensures o.stack == old(o.stack)
      ensures var e := Expand(lib, path, old(o.stack));
              && SameOutcome(r, e)
              && (e.Ok? ==> && o.All() == Then(old(o.All()), Render(e.value, matrix, material))
                            && o.deps == old(o.deps) + {path} + Included(e.value))
    {
      if path in o.stack {
        return Err(Cyclic(path));
      }
      o.stack := o.stack + {path};
      o.deps := o.deps + {path};
      var source := Source(path);
      if source.Err? {
        r := Err(source.error);
      } else {
        r := FlattenLines(path, source.value, matrix, material, o);
      }
      o.stack := o.stack - {path};
    }

    method FlattenLines(path: string, rows: seq<ParsedLine>, matrix: Transform, material: Context, o: Output)
      returns (r: Result<(), FlattenError>)
      requires Valid() && forall line | line in rows :: WellFormed(line)
      modifies this`cache, o
      decreases lib.files.Keys - o.stack, 2
      ensures Valid()
      ensures o.stack == old(o.stack)
      ensures var e := ExpandLines(lib, path, rows, old(o.stack));
              && SameOutcome(r, e)
              && (e.Ok? ==> && o.All() == Then(old(o.All()), Render(e.value, matrix, material))
                            && o.deps == old(o.deps) + Included(e.value))
    {
      ghost var whole := ExpandLines(lib, path, rows, o.stack);
      ghost var all, allDeps := NOTHING, {};
      if whole.Ok? {
        all, allDeps := Then(o.All(), Render(whole.value, matrix, material)), o.deps + Included(whole.value);
      }
      ghost var rest := whole;
      assert rows[0..] == rows;
      for i := 0 to |rows|
        invariant Valid()
        invariant o.stack == old(o.stack)
        invariant rest == ExpandLines(lib, path, rows[i..], o.stack)
        invariant whole.Ok? <==> rest.Ok?
        invariant whole.Err? ==> whole == rest
        invariant whole.Ok? ==> Completes(o.All(), o.deps, rest.value, all, allDeps, matrix, material)
      {
        assert rows[i] in rows && rows[i..][0] == rows[i] && rows[i..][1..] == rows[i + 1..];
        ghost var next := ExpandLines(lib, path, rows[i + 1..], o.stack);
        r := FlattenLine(path, rows[i], matrix, material, o, next, all, allDeps);
        if r.Err? {
          return;
        }
        rest := next;
      }
      assert rows[|rows|..] == [];
      ThenAssociates(o.All(), NOTHING, NOTHING);
      r := Ok(());
    }

    // One line of a file, where `next` is the expansion of the lines after it.
    method FlattenLine(path: string, line: ParsedLine, matrix: Transform, material: Context, o: Output,
                       ghost next: Result<Scene, FlattenError>, ghost all: Drawn, ghost allDeps: set<string>)
      returns (r: Result<(), FlattenError>)
      requires Valid() && WellFormed(line)
      requires next.Ok? ==> Drawable(next.value)
      requires var e := ExpandLine(lib, path, line, next, o.stack);
               e.Ok? ==> Completes(o.All(), o.deps, e.value, all, allDeps, matrix, material)
      modifies this`cache, o
      decreases lib.files.Keys - o.stack, 1
      ensures Valid()
      ensures o.stack == old(o.stack)
      ensures var e := ExpandLine(lib, path, line, next, old(o.stack));
              if r.Err? then e.Err? && e.error == r.error
              else if next.Err? then e.Err? && e.error == next.error
              else e.Ok?
      ensures ExpandLine(lib, path, line, next, old(o.stack)).Ok? ==>
                next.Ok? && Completes(o.All(), o.deps, next.value, all, allDeps, matrix, material)
    {
      ghost var at, deps := o.All(), o.deps;
      if line.kind == '1' {
        var childPath := ResolveReference(line.reference, lib.files.Keys);
        if childPath.None? {
          return Err(BadReference(path, line.reference));
        }
        var composed := Compose(matrix, line.transform);
        ghost var scene := Expand(lib, childPath.value, o.stack);
        r := Flatten(childPath.value, composed, ChildMaterial(line.color, material), o);
        if r.Ok? && next.Ok? {
          CompletesInclude(at, deps, childPath.value, line.color, line.transform, scene.value, next.value,
                           all, allDeps, matrix, material);
        }
      } else {
        o.Append(line, matrix, material);
        if next.Ok? {
          CompletesDraw(at, deps, line, next.value, all, allDeps, matrix, material);
        }
        r := Ok(());
      }
    }

    /** Resolves and flattens a part at the identity; an empty part is refused. */
    method FlattenPart(partID: string) returns (r: Result<(seq<Triangle>, seq<RenderLine>, set<string>), FlattenError>)
      requires Valid()
      modifies this`cache
      ensures Valid()
      ensures var root := ResolveReference(partID, lib.files.Keys);
              r.Ok? <==> root.Some? && Compilable(lib, root.value) && PartDrawing(lib, root.value).triangles != []
      ensures r.Ok? ==>
                var root := ResolveReference(partID, lib.files.Keys).value;
                && Drawn(r.value.0, r.value.1) == PartDrawing(lib, root) && DrawsPart(lib, root, Drawn(r.value.0, r.value.1))
                && AreReachable(lib, root, r.value.2)
    {
      var root := ResolveReference(partID, lib.files.Keys);
      if root.None? {
        return Err(BadReference("", partID));
      }
      WholePart(lib, root.value);
      var o := new Output();
      var flat := Flatten(root.value, Identity(), TOP, o);
      if flat.Err? {
        return Err(flat.error);
      }
      if |o.triangles| == 0 {
        return Err(NoTriangles);
      }
      return Ok((o.triangles, o.lines, o.deps));
    }
  }
}
