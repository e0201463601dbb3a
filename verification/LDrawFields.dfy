/** What the rows of an LDraw file say, field by field. */
module LDrawFields {
  import opened Wrappers
  import opened Sequences
  import opened LDrawGeometry
  import opened LDrawSource

  // ---- Rows ----

  // The values stand in the row's fields from a position on, one after another.
  ghost predicate Stand(f: Row, at: nat, values: seq<real>, num: Numerals) {
    at + |values| <= |f| && forall k :: 0 <= k < |values| ==> num.float(f[at + k]) == Some(values[k])
  }

  ghost predicate PointStands(f: Row, at: nat, p: Vec3, num: Numerals) {
    Stand(f, at, [p.x, p.y, p.z], num)
  }

  /**
   The type is the first field and the colour the second. A reference has its
   translation in fields 2 to 4, its matrix row by row in fields 5 to 13, and its
   name from field 14 on; any other row has its points from field 2 on.
   */
  ghost predicate RowSays(f: Row, line: ParsedLine, num: Numerals) {
    && |f| > 1 && num.integer(f[1]) == Some(line.color) && f[0] == [line.kind]
    && match line.kind
       case '1' =>
         && |f| >= 15 && line.points == []
         && PointStands(f, 2, line.transform.t, num) && Stand(f, 5, line.transform.m, num)
         && line.reference == NormalizeName(JoinFields(f[14..]))
       case '2' => |f| >= 8 && PointsStand(f, line.points, 2, num)
       case '3' => |f| >= 11 && PointsStand(f, line.points, 3, num)
       case '4' => |f| >= 14 && PointsStand(f, line.points, 4, num)
       case '5' => |f| >= 14 && PointsStand(f, line.points, 4, num)
       case _ => false
  }

  ghost predicate PointsStand(f: Row, points: seq<Vec3>, count: nat, num: Numerals) {
    |points| == count && forall i :: 0 <= i < count ==> PointStands(f, 2 + 3 * i, points[i], num)
  }

  predicate IsTyped(f: Row) {
    f != [] && f[0] in {"1", "2", "3", "4", "5"}
  }

  // The fields a row of its type cannot do without, and those of them that are coordinates.
  predicate Short(f: Row) {
    IsTyped(f) && ((f[0] == "1" && |f| < 15) || (f[0] == "2" && |f| < 8) || (f[0] == "3" && |f| < 11) || (f[0] in {"4", "5"} && |f| < 14))
  }

  predicate IsCoordinate(f: Row, k: int) {
    2 <= k < |f| && k < (if f[0] == "2" then 8 else if f[0] == "3" then 11 else 14)
  }

  ghost predicate Unreadable(f: Row, num: Numerals) {
    exists k :: IsCoordinate(f, k) && num.float(f[k]) == None
  }

  lemma FloatsStand(f: Row, from: nat, to: nat, num: Numerals)
    requires from <= to <= |f|
    ensures var r := ParseFloats(f[from..to], num);
            if r.Some? then |r.value| == to - from && Stand(f, from, r.value, num)
            else exists k :: from <= k < to && num.float(f[k]) == None
  {
    var r := ParseFloats(f[from..to], num);
    if r.None? {
      var k :| 0 <= k < to - from && num.float(f[from..to][k]) == None;
      assert f[from..to][k] == f[from + k];
    } else {
      forall k | 0 <= k < to - from ensures num.float(f[from + k]) == Some(r.value[k]) {
        assert f[from..to][k] == f[from + k];
      }
    }
  }

  lemma PartStands(f: Row, at: nat, values: seq<real>, i: nat, j: nat, num: Numerals)
    requires Stand(f, at, values, num) && i <= j <= |values|
    ensures Stand(f, at + i, values[i..j], num)
  {
    forall k | 0 <= k < j - i ensures num.float(f[at + i + k]) == Some(values[i..j][k]) {
      assert num.float(f[at + (i + k)]) == Some(values[i + k]);
    }
  }

  lemma ReferenceSays(f: Row, num: Numerals)
    requires |f| >= 15 && f[0] == "1" && num.integer(f[1]).Some?
    ensures ParseRow(f, num) == Err(BadTransform) <==> Unreadable(f, num)
    ensures ParseRow(f, num) == Err(BadTransform)
            || (ParseRow(f, num).Ok? && ParseRow(f, num).value.Some? && RowSays(f, ParseRow(f, num).value.value, num))
  {
    FloatsStand(f, 2, 14, num);
    var r := ParseFloats(f[2..14], num);
    if r.Some? {
      var v := r.value;
      PartStands(f, 2, v, 0, 3, num);
      PartStands(f, 2, v, 3, 12, num);
      assert v[0..3] == [v[0], v[1], v[2]];
      forall k | IsCoordinate(f, k) ensures num.float(f[k]).Some? {
        assert num.float(f[2 + (k - 2)]) == Some(v[k - 2]);
      }
    } else {
      var k :| 2 <= k < 14 && num.float(f[k]) == None;
      assert IsCoordinate(f, k);
    }
  }

  lemma TriplesStand(f: Row, v: seq<real>, num: Numerals)
    requires Stand(f, 2, v, num) && |v| % 3 == 0
    ensures PointsStand(f, Triples(v), |v| / 3, num)
  {
    forall i | 0 <= i < |v| / 3 ensures PointStands(f, 2 + 3 * i, Triples(v)[i], num) {
      PartStands(f, 2, v, 3 * i, 3 * i + 3, num);
      assert v[3 * i..3 * i + 3] == [v[3 * i], v[3 * i + 1], v[3 * i + 2]];
    }
  }

  // How many fields the coordinates of a row with points reach up to.
  function PointsEnd(f: Row): nat
    requires f != []
  {
    if f[0] == "2" then 8 else if f[0] == "3" then 11 else 14
  }

  lemma ReadableFloats(f: Row, num: Numerals)
    requires f != [] && PointsEnd(f) <= |f|
    ensures var r := ParseFloats(f[2..PointsEnd(f)], num);
            && (r.None? <==> Unreadable(f, num))
            && (r.Some? ==> |r.value| == PointsEnd(f) - 2 && PointsStand(f, Triples(r.value), |r.value| / 3, num))
  {
    var need := PointsEnd(f);
    FloatsStand(f, 2, need, num);
    var r := ParseFloats(f[2..need], num);
    if r.Some? {
      TriplesStand(f, r.value, num);
      forall k | IsCoordinate(f, k) ensures num.float(f[k]).Some? {
        assert num.float(f[2 + (k - 2)]) == Some(r.value[k - 2]);
      }
    } else {
      var k :| 2 <= k < need && num.float(f[k]) == None;
      assert IsCoordinate(f, k);
    }
  }

  lemma PointsSay(f: Row, num: Numerals)
    requires IsTyped(f) && !Short(f) && f[0] != "1" && num.integer(f[1]).Some?
    ensures ParseRow(f, num) == Err(BadPoints) <==> Unreadable(f, num)
    ensures ParseRow(f, num) == Err(BadPoints)
            || (ParseRow(f, num).Ok? && ParseRow(f, num).value.Some? && RowSays(f, ParseRow(f, num).value.value, num))
  {
    ReadableFloats(f, num);
    assert PointsEnd(f) == Need(f[0]);
  }

  /** What a row gives: nothing for an unknown type, an error for exactly these reasons, otherwise what its fields say. */
  lemma RowOutcome(f: Row, num: Numerals)
    ensures var r := ParseRow(f, num);
            && (r == Ok(None) <==> !IsTyped(f))
            && (r == Err(TooFewFields) <==> Short(f))
            && (r == Err(BadColor) <==> IsTyped(f) && !Short(f) && num.integer(f[1]) == None)
            && (r == Err(BadTransform) <==>
                IsTyped(f) && !Short(f) && num.integer(f[1]).Some? && f[0] == "1" && Unreadable(f, num))
            && (r == Err(BadPoints) <==>
                IsTyped(f) && !Short(f) && num.integer(f[1]).Some? && f[0] != "1" && Unreadable(f, num))
            && (r.Ok? && r.value.Some? ==> RowSays(f, r.value.value, num))
  {
    if IsTyped(f) && !Short(f) && num.integer(f[1]).Some? {
      if f[0] == "1" {
        ReferenceSays(f, num);
      } else {
        PointsSay(f, num);
      }
    }
  }

  // ---- Files ----

  ghost function Says(num: Numerals): (Row, ParsedLine) -> bool {
    (f: Row, line: ParsedLine) => RowSays(f, line, num)
  }

  // The lines are what the rows at these positions say, which are the typed ones.
  ghost predicate FileSays(rows: seq<Row>, lines: seq<ParsedLine>, at: seq<nat>, num: Numerals) {
    Read(rows, lines, at, IsTyped, Says(num))
  }

  /** A file that parses gives one line for each typed row, in order, with what that row says. */
  lemma {:induction false} FileReads(rows: seq<Row>, from: nat, num: Numerals) returns (at: seq<nat>)
    requires ParseRows(rows, from, num).Ok?
    ensures FileSays(rows, ParseRows(rows, from, num).value, at, num)
  {
    at := [];
    if rows != [] {
      var later := FileReads(rows[1..], from + 1, num);
      RowOutcome(rows[0], num);
      HeadTail(rows);
      var lines := ParseRows(rows[1..], from + 1, num).value;
      match ParseRow(rows[0], num).value
      case None =>
        ReadSkips(rows[0], rows[1..], lines, later, IsTyped, Says(num));
        assert [] + lines == lines;
        at := Later(later);
      case Some(line) =>
        ReadTakes(rows[0], line, rows[1..], lines, later, IsTyped, Says(num));
        at := [0] + Later(later);
    }
  }

  // ---- Names ----

  const BLANKS := "\t\n\r \U{000B}\U{000C}"

  predicate Blank(s: string) {
    forall c | c in s :: c in BLANKS
  }

  // The character as names hold it: forward slashes, small letters.
  ghost predicate Folds(c: char, d: char) {
    if c == '\\' then d == '/'
    else if 65 <= c as int <= 90 then d as int == c as int + 32
    else d == c
  }

  lemma {:induction false} TrimLeftDrops(s: string) returns (front: string)
    ensures s == front + TrimLeft(s) && Blank(front)
  {
    front := "";
    if s != "" && IsSpace(s[0]) {
      front := TrimLeftDrops(s[1..]);
      HeadTail(s);
      ConcatAssoc([s[0]], front, TrimLeft(s[1..]));
      front := [s[0]] + front;
    }
  }

  lemma {:induction false} TrimRightDrops(s: string) returns (back: string)
    ensures s == TrimRight(s) + back && Blank(back)
  {
    back := "";
    if s != "" && IsSpace(s[|s| - 1]) {
      var init := s[..|s| - 1];
      back := TrimRightDrops(init);
      LastApart(s);
      ConcatAssoc(TrimRight(init), back, [s[|s| - 1]]);
      back := back + [s[|s| - 1]];
    }
  }

  /** A name loses blanks at both ends and nothing else; the characters between are folded one by one. */
  lemma NameIsFolded(name: string) returns (front: string, middle: string, back: string)
    ensures name == front + middle + back && Blank(front) && Blank(back)
    ensures middle == "" || (middle[0] !in BLANKS && middle[|middle| - 1] !in BLANKS)
    ensures |NormalizeName(name)| == |middle| && forall i :: 0 <= i < |middle| ==> Folds(middle[i], NormalizeName(name)[i])
  {
    front := TrimLeftDrops(name);
    back := TrimRightDrops(TrimLeft(name));
    middle := TrimRight(TrimLeft(name));
    ConcatAssoc(front, middle, back);
    TrimIsTrimmed(name);
  }

  /** The fields of a name are joined by single blanks. */
  lemma {:induction false} JoinedByBlanks(a: seq<string>, b: seq<string>)
    requires a != [] && b != []
    ensures JoinFields(a + b) == JoinFields(a) + " " + JoinFields(b)
    ensures JoinFields([a[0]]) == a[0]
  {
    if |a| > 1 {
      assert (a + b)[1..] == a[1..] + b;
      JoinedByBlanks(a[1..], b);
      ConcatAssoc(a[0] + " ", JoinFields(a[1..]), " " + JoinFields(b));
      ConcatAssoc(JoinFields(a[1..]), " ", JoinFields(b));
      ConcatAssoc(JoinFields(a), " ", JoinFields(b));
    } else {
      assert (a + b)[1..] == b;
    }
  }

  /**
   Where a reference is looked up: sub-parts only among the parts, names with a
   resolution in front only among the primitives, all others among the parts first.
   */
  lemma ReferenceOrder(name: string, paths: set<string>)
    ensures var n, r := NormalizeName(name), ResolveReference(name, paths);
            if "s/" <= n then r == if "parts/" + n in paths then Some("parts/" + n) else None
            else if "48/" <= n || "8/" <= n then r == if "p/" + n in paths then Some("p/" + n) else None
            else r == if "parts/" + n in paths then Some("parts/" + n) else if "p/" + n in paths then Some("p/" + n) else None
  {
    var c := Candidates(NormalizeName(name));
    assert |c| > 1 ==> c[1..][1..] == [];
  }

  /** Paths of archive members: a leading dot directory and then the library's own directory are taken off the name. */
  lemma ArchivePaths(name: string, rest: string)
    ensures NormalizeName(name) == "./ldraw/" + rest ==> NormalizeArchivePath(name) == rest
    ensures NormalizeName(name) == "ldraw/" + rest ==> NormalizeArchivePath(name) == rest
    ensures NormalizeName(name) == "./" + rest && !("ldraw/" <= rest) ==> NormalizeArchivePath(name) == rest
    ensures NormalizeName(name) == rest && !("./" <= rest) && !("ldraw/" <= rest) ==> NormalizeArchivePath(name) == rest
  {
    var n := NormalizeName(name);
    if n == "./ldraw/" + rest {
      assert n[2..] == "ldraw/" + rest && ("ldraw/" + rest)[6..] == rest;
    } else if n == "ldraw/" + rest {
      assert n[0] == 'l' && n[6..] == rest;
    } else if n == "./" + rest {
      assert n[2..] == rest;
    }
  }
}
