/** How far comparing nets as joined text decides that they are the same nets, whatever their names hold. */
module CircuitNets {
  import opened Wrappers
  import opened Sequences
  import opened Sorting
  import opened Text
  import opened CircuitModules

  // ---- Text and lengths ----

  function Size(s: string): nat {
    |s|
  }

  function Sizes(q: seq<string>): seq<nat> {
    Map(Size, q)
  }

  // Joined text and the lengths of its parts determine the parts, separators inside them or not.
  lemma {:induction false} JoinWithSizes(p: seq<string>, q: seq<string>, sep: char)
    requires Sizes(p) == Sizes(q) && Join(p, sep) == Join(q, sep)
    ensures p == q
  {
    assert |p| == |Sizes(p)| == |Sizes(q)| == |q|;
    if |p| == 1 {
      assert p == [p[0]] && q == [q[0]];
    } else if p != [] {
      assert |p[0]| == Sizes(p)[0] == Sizes(q)[0] == |q[0]|;
      ConcatAssoc(p[0], [sep], Join(p[1..], sep));
      ConcatAssoc(q[0], [sep], Join(q[1..], sep));
      SameHeadAndRest(p[0], q[0], [sep] + Join(p[1..], sep), [sep] + Join(q[1..], sep));
      assert ([sep] + Join(p[1..], sep))[1..] == Join(p[1..], sep) && ([sep] + Join(q[1..], sep))[1..] == Join(q[1..], sep);
      assert Sizes(p[1..]) == Sizes(p)[1..] && Sizes(q[1..]) == Sizes(q)[1..];
      JoinWithSizes(p[1..], q[1..], sep);
      HeadTail(p);
      HeadTail(q);
    }
  }

  lemma SameHeadAndRest(a: string, b: string, x: string, y: string)
    requires |a| == |b|
    ensures a + x == b + y <==> a == b && x == y
  {
    assert (a + x)[..|a|] == a && (a + x)[|a|..] == x;
    assert (b + y)[..|b|] == b && (b + y)[|b|..] == y;
  }

  // The length of the joined text, from the lengths of the parts.
  function JoinedSize(sizes: seq<nat>): nat {
    if sizes == [] then 0 else if |sizes| == 1 then sizes[0] else sizes[0] + 1 + JoinedSize(sizes[1..])
  }

  lemma {:induction false} JoinHasSize(q: seq<string>, sep: char)
    ensures |Join(q, sep)| == JoinedSize(Sizes(q))
  {
    if |q| > 1 {
      JoinHasSize(q[1..], sep);
      assert Sizes(q[1..]) == Sizes(q)[1..];
    }
  }

  // ---- Outlines ----

  // A net's line with the lengths of its names in their sorted order.
  datatype Outline = Outline(line: string, sizes: seq<nat>)

  function OutlineOf(net: seq<string>): Outline {
    Outline(Line(net), Sizes(SortText(net)))
  }

  function LineOf(o: Outline): string {
    o.line
  }

  function SizesOf(o: Outline): seq<nat> {
    o.sizes
  }

  // Which nets have one outline: those with the same names.
  lemma OutlineIsBag(a: seq<string>, b: seq<string>)
    ensures OutlineOf(a) == OutlineOf(b) <==> Bag(a) == Bag(b)
  {
    SortTextExact(a, b);
    if OutlineOf(a) == OutlineOf(b) {
      JoinWithSizes(SortText(a), SortText(b), '|');
    }
  }

  function CompareSizes(a: seq<nat>, b: seq<nat>): int {
    if a == [] then (if b == [] then 0 else -1)
    else if b == [] then 1
    else if a[0] != b[0] then a[0] - b[0]
    else CompareSizes(a[1..], b[1..])
  }

  lemma {:induction false} SizesFlip(a: seq<nat>, b: seq<nat>)
    ensures CompareSizes(a, b) < 0 <==> CompareSizes(b, a) > 0
    ensures CompareSizes(a, b) == 0 <==> a == b
  {
    if a != [] && b != [] {
      SizesFlip(a[1..], b[1..]);
      SizesFlipBack(a[1..], b[1..]);
      HeadTail(a);
      HeadTail(b);
    }
  }

  lemma {:induction false} SizesFlipBack(a: seq<nat>, b: seq<nat>)
    ensures CompareSizes(a, b) == -CompareSizes(b, a)
  {
    if a != [] && b != [] {
      SizesFlipBack(a[1..], b[1..]);
    }
  }

  lemma {:induction false} SizesTransitive(a: seq<nat>, b: seq<nat>, c: seq<nat>)
    requires CompareSizes(a, b) <= 0 && CompareSizes(b, c) <= 0
    ensures CompareSizes(a, c) <= 0
  {
    if a != [] && b != [] && c != [] && a[0] == b[0] == c[0] {
      SizesTransitive(a[1..], b[1..], c[1..]);
    }
  }

  // By line; lines that coincide by the lengths of their names.
  function CompareOutlines(a: Outline, b: Outline): int {
    if CompareText(a.line, b.line) != 0 then CompareText(a.line, b.line) else CompareSizes(a.sizes, b.sizes)
  }

  lemma OutlinesFlip(a: Outline, b: Outline)
    ensures CompareOutlines(a, b) < 0 <==> CompareOutlines(b, a) > 0
    ensures CompareOutlines(a, b) == 0 <==> a == b
  {
    CompareFlips(a.line, b.line);
    SizesFlip(a.sizes, b.sizes);
  }

  lemma OutlinesTransitive(a: Outline, b: Outline, c: Outline)
    requires CompareOutlines(a, b) <= 0 && CompareOutlines(b, c) <= 0
    ensures CompareOutlines(a, c) <= 0
  {
    CompareFlips(a.line, b.line);
    CompareFlips(b.line, c.line);
    CompareFlips(a.line, c.line);
    CompareTransitive(a.line, b.line, c.line);
    if a.line == b.line == c.line {
      SizesTransitive(a.sizes, b.sizes, c.sizes);
    } else if a.line == c.line {
      CompareTransitive(b.line, c.line, a.line);
      CompareFlips(b.line, a.line);
    }
  }

  lemma OutlinesAreStrict(m: multiset<Outline>)
    ensures StrictOn(CompareOutlines, m)
  {
    forall a, b | a in m && b in m
      ensures CompareOutlines(a, b) < 0 <==> CompareOutlines(b, a) > 0
      ensures a != b ==> CompareOutlines(a, b) != 0
    {
      OutlinesFlip(a, b);
    }
    forall a, b, c | a in m && b in m && c in m && CompareOutlines(a, b) <= 0 && CompareOutlines(b, c) <= 0
      ensures CompareOutlines(a, c) <= 0
    {
      OutlinesTransitive(a, b, c);
    }
  }

  // ---- Shapes ----

  function Sorted(nets: seq<seq<string>>): seq<Outline> {
    Sort(CompareOutlines, Map(OutlineOf, nets))
  }

  // The lengths of the names, net by net in the order of their lines: no names, only how long they are.
  function Shapes(nets: seq<seq<string>>): seq<seq<nat>> {
    Map(SizesOf, Sorted(nets))
  }

  lemma {:induction false} LinesOrdered(os: seq<Outline>)
    requires Ordered(CompareOutlines, os)
    ensures Ordered(CompareText, Map(LineOf, os))
  {
    if os != [] {
      LinesOrdered(os[1..]);
      assert Map(LineOf, os)[1..] == Map(LineOf, os[1..]);
      forall s | s in Map(LineOf, os)[1..] ensures CompareText(os[0].line, s) <= 0 {
        var i :| 0 <= i < |os| - 1 && Map(LineOf, os)[1..][i] == s;
        assert os[1..][i] in os[1..] && os[1..][i].line == s;
      }
    }
  }

  lemma SortedLines(nets: seq<seq<string>>)
    ensures Map(LineOf, Sorted(nets)) == SortText(Map(Line, nets))
  {
    var outlines := Map(OutlineOf, nets);
    OutlinesAreStrict(multiset(outlines));
    SortOrdered(CompareOutlines, outlines);
    SortMembers(CompareOutlines, outlines);
    LinesOrdered(Sorted(nets));
    SameBags(Sorted(nets), outlines);
    assert Map(LineOf, outlines) == Map(Line, nets);
    TextIsStrict(multiset(Map(Line, nets)));
    SortOrdered(CompareText, Map(Line, nets));
    SortMembers(CompareText, Map(Line, nets));
    OrderedUnique(CompareText, Map(LineOf, Sorted(nets)), SortText(Map(Line, nets)));
  }

  function Itself(o: Outline): Outline {
    o
  }

  lemma SameBags(a: seq<Outline>, b: seq<Outline>)
    requires multiset(a) == multiset(b)
    ensures multiset(Map(LineOf, a)) == multiset(Map(LineOf, b))
  {
    assert Map(Itself, a) == a && Map(Itself, b) == b;
    BagsMatch(Itself, LineOf, a, b);
  }

  lemma SortedSizes(nets: seq<seq<string>>, i: nat)
    requires i < |Sorted(nets)|
    ensures |Sorted(nets)[i].line| == JoinedSize(Sorted(nets)[i].sizes)
  {
    var o := Sorted(nets)[i];
    assert o in Sorted(nets);
    SortHas(CompareOutlines, Map(OutlineOf, nets), o);
    var j :| 0 <= j < |nets| && Map(OutlineOf, nets)[j] == o;
    JoinHasSize(SortText(nets[j]), '|');
  }

  lemma ShapesGiveLines(a: seq<seq<string>>, b: seq<seq<string>>)
    requires NetsKey(a) == NetsKey(b) && Shapes(a) == Shapes(b)
    ensures Sorted(a) == Sorted(b)
  {
    var x, y := Sorted(a), Sorted(b);
    SortedLines(a);
    SortedLines(b);
    assert |x| == |Shapes(a)| == |Shapes(b)| == |y|;
    var p, q := Map(LineOf, x), Map(LineOf, y);
    forall i | 0 <= i < |x| ensures x[i].sizes == y[i].sizes && |p[i]| == |q[i]| {
      assert Shapes(a)[i] == x[i].sizes && Shapes(b)[i] == y[i].sizes;
      SortedSizes(a, i);
      SortedSizes(b, i);
    }
    assert Sizes(p) == Sizes(q);
    JoinWithSizes(p, q, '\n');
    forall i | 0 <= i < |x| ensures x[i] == y[i] {
      assert p[i] == x[i].line && q[i] == y[i].line;
    }
  }

  /**
   For any names at all: two lists of nets with one text are the same nets
   exactly when, in the order of their lines, their names are equally long.
   */
  lemma ShapesDecide(a: seq<seq<string>>, b: seq<seq<string>>)
    requires NetsKey(a) == NetsKey(b)
    ensures multiset(Map(Bag, a)) == multiset(Map(Bag, b)) <==> Shapes(a) == Shapes(b)
  {
    forall x, y ensures OutlineOf(x) == OutlineOf(y) <==> Bag(x) == Bag(y) {
      OutlineIsBag(x, y);
    }
    SortMembers(CompareOutlines, Map(OutlineOf, a));
    SortMembers(CompareOutlines, Map(OutlineOf, b));
    if multiset(Map(Bag, a)) == multiset(Map(Bag, b)) {
      BagsMatch(Bag, OutlineOf, a, b);
      OutlinesAreStrict(multiset(Map(OutlineOf, a)));
      SortOrdered(CompareOutlines, Map(OutlineOf, a));
      SortOrdered(CompareOutlines, Map(OutlineOf, b));
      OrderedUnique(CompareOutlines, Sorted(a), Sorted(b));
    }
    if Shapes(a) == Shapes(b) {
      ShapesGiveLines(a, b);
      BagsMatch(OutlineOf, Bag, a, b);
    }
  }

  // ---- The check ----

  /** Whatever the names, an accepted project is right exactly when expected and connected names are equally long. */
  lemma AcceptedIsRightExactly(project: Project, parts: seq<Part>)
    requires Accepts(project, parts)
    ensures Right(project, parts) <==> Shapes(project.expected_nets) == Shapes(Map(EndsOf, project.connections.value))
  {
    ShapesDecide(project.expected_nets, Map(EndsOf, project.connections.value));
  }

  lemma OneNet(net: seq<string>)
    ensures Map(Line, [net]) == [Line(net)] && Map(Bag, [net]) == [Bag(net)]
  {
  }

  /** A net that only looks like the one connection passes for it. */
  lemma PretenderAccepted(project: Project, parts: seq<Part>, w: Connection, net: seq<string>)
    requires Right(project, parts) && project.connections == Some([w])
    requires Line(net) == Line(EndsOf(w)) && Bag(net) != Bag(EndsOf(w))
    ensures Accepts(project.(expected_nets := [net]), parts) && !Right(project.(expected_nets := [net]), parts)
  {
    assert Map(EndsOf, [w]) == [EndsOf(w)];
    OneNet(net);
    OneNet(EndsOf(w));
    assert Bag(net) in multiset([Bag(net)]) && Bag(net) !in multiset([Bag(EndsOf(w))]);
  }

  lemma LineOfOne(x: string)
    ensures Line([x]) == x
  {
    SortOne(x);
  }

  lemma LineOfTwo(x: string, y: string)
    requires CompareText(y, x) >= 0
    ensures Line([x, y]) == x + "|" + y
  {
    SortTwo(x, y);
    JoinTwo(x, y);
  }

  /** Every right project with one wire turns into a wrong one that is accepted still. */
  lemma WrongProjectAccepted(project: Project, parts: seq<Part>, w: Connection)
    requires Right(project, parts) && project.connections == Some([w]) && CompareText(w.to, w.from) >= 0
    ensures Accepts(project.(expected_nets := [[w.from + "|" + w.to]]), parts)
    ensures !Right(project.(expected_nets := [[w.from + "|" + w.to]]), parts)
  {
    var net := [w.from + "|" + w.to];
    LineOfOne(net[0]);
    LineOfTwo(w.from, w.to);
    assert |Bag(net)| == 1 && |Bag(EndsOf(w))| == 2;
    PretenderAccepted(project, parts, w, net);
  }

  lemma Regroup<T>(a: seq<T>, sep: seq<T>, b: seq<T>, c: seq<T>)
    ensures a + sep + (b + sep + c) == a + sep + b + sep + c
  {
    ConcatAssoc(a + sep, b + sep, c);
    ConcatAssoc(a + sep, b, sep);
  }

  lemma ShiftedLines(x: string, y: string, z: string)
    requires CompareText(z, x + "|" + y) >= 0 && CompareText(y + "|" + z, x) >= 0
    ensures Line([x, y + "|" + z]) == Line([x + "|" + y, z])
  {
    LineOfTwo(x, y + "|" + z);
    LineOfTwo(x + "|" + y, z);
    Regroup(x, "|", y, z);
  }

  lemma {:induction false} PrefixComparesBelow(x: string, more: string)
    requires more != ""
    ensures CompareText(x, x + more) < 0
  {
    if x == "" {
      assert x + more == more;
    } else {
      PrefixComparesBelow(x[1..], more);
      assert (x + more)[1..] == x[1..] + more;
    }
  }

  lemma ShiftedBagsDiffer(x: string, y: string, z: string)
    requires CompareText(z, x + "|" + y) >= 0
    ensures Bag([x, y + "|" + z]) != Bag([x + "|" + y, z])
  {
    PrefixComparesBelow(x, "|" + y);
    ConcatAssoc(x, "|", y);
    assert |x + "|" + y| > |x|;
    assert x in Bag([x, y + "|" + z]) && x !in Bag([x + "|" + y, z]);
  }

  /** With a separator in a connected name even a pair of names with as many separators can be wrong and accepted. */
  lemma ShiftedPairAccepted(project: Project, parts: seq<Part>, w: Connection, x: string, y: string)
    requires Right(project, parts) && project.connections == Some([w]) && w.from == x + "|" + y
    requires CompareText(w.to, w.from) >= 0 && CompareText(y + "|" + w.to, x) >= 0
    ensures Accepts(project.(expected_nets := [[x, y + "|" + w.to]]), parts)
    ensures !Right(project.(expected_nets := [[x, y + "|" + w.to]]), parts)
  {
    ShiftedLines(x, y, w.to);
    ShiftedBagsDiffer(x, y, w.to);
    PretenderAccepted(project, parts, w, [x, y + "|" + w.to]);
  }
}
