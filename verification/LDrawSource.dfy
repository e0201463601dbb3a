/** Reading LDraw files: names, reference resolution and the typed lines of one file. */
module LDrawSource {
  import opened Wrappers
  import opened LDrawGeometry

  // ---- Names. Character classes are those of ASCII. ----

  predicate IsSpace(c: char) {
    c in "\t\n\r " || c == 11 as char || c == 12 as char
  }

  function LowerSlash(c: char): char {
    if c == '\\' then '/' else if 'A' <= c <= 'Z' then (c as int + 32) as char else c
  }

  function TrimLeft(s: string): string {
    if s != "" && IsSpace(s[0]) then TrimLeft(s[1..]) else s
  }

  function TrimRight(s: string): string {
    if s != "" && IsSpace(s[|s| - 1]) then TrimRight(s[..|s| - 1]) else s
  }

  function NormalizeName(name: string): string {
    var trimmed := TrimRight(TrimLeft(name));
    seq(|trimmed|, i requires 0 <= i < |trimmed| => LowerSlash(trimmed[i]))
  }

  function TrimPrefix(s: string, prefix: string): string {
    if prefix <= s then s[|prefix|..] else s
  }

  function NormalizeArchivePath(name: string): string {
    TrimPrefix(TrimPrefix(NormalizeName(name), "./"), "ldraw/")
  }

  predicate Canonical(path: string) {
    NormalizeArchivePath(path) == path
  }

  // ---- Reference resolution ----

  function Candidates(name: string): seq<string> {
    if "s/" <= name then ["parts/" + name]
    else if "48/" <= name || "8/" <= name then ["p/" + name]
    else ["parts/" + name, "p/" + name]
  }

  function FirstPresent(candidates: seq<string>, paths: set<string>): (r: Option<string>)
    ensures r.Some? ==> r.value in candidates && r.value in paths
    ensures r.None? <==> forall c | c in candidates :: c !in paths
  {
    if candidates == [] then None
    else if candidates[0] in paths then Some(candidates[0])
    else FirstPresent(candidates[1..], paths)
  }

  /** The archive path a reference stands for, if the archive has one. */
  function ResolveReference(name: string, paths: set<string>): (r: Option<string>)
    ensures r.Some? ==> r.value in paths && Canonical(r.value)
    ensures r.Some? <==> exists c | c in Candidates(NormalizeName(name)) :: c in paths
  {
    var n := NormalizeName(name);
    CandidatesAreCanonical(name);
    FirstPresent(Candidates(n), paths)
  }

  predicate Trimmed(s: string) {
    s == "" || (!IsSpace(s[0]) && !IsSpace(s[|s| - 1]))
  }

  predicate Lowered(s: string) {
    forall i :: 0 <= i < |s| ==> LowerSlash(s[i]) == s[i]
  }

  lemma TrimIsTrimmed(s: string)
    ensures Trimmed(TrimRight(TrimLeft(s)))
  {
    TrimLeftStart(s);
    TrimRightEnds(TrimLeft(s));
  }

  lemma {:induction false} TrimLeftStart(s: string)
    ensures TrimLeft(s) == "" || !IsSpace(TrimLeft(s)[0])
  {
    if s != "" && IsSpace(s[0]) {
      TrimLeftStart(s[1..]);
    }
  }

  lemma {:induction false} TrimRightEnds(s: string)
    ensures TrimRight(s) <= s
    ensures TrimRight(s) == "" || !IsSpace(TrimRight(s)[|TrimRight(s)| - 1])
  {
    if s != "" && IsSpace(s[|s| - 1]) {
      TrimRightEnds(s[..|s| - 1]);
    }
  }

  lemma NormalizeIsClean(name: string)
    ensures Trimmed(NormalizeName(name)) && Lowered(NormalizeName(name))
  {
    TrimIsTrimmed(name);
    assert forall c {:trigger LowerSlash(c)} :: IsSpace(LowerSlash(c)) <==> IsSpace(c);
  }

  lemma CleanIsFixed(s: string)
    requires Trimmed(s) && Lowered(s)
    ensures NormalizeName(s) == s
  {
    assert TrimLeft(s) == s && TrimRight(s) == s;
  }

  lemma CandidatesAreCanonical(name: string)
    ensures forall c | c in Candidates(NormalizeName(name)) :: Canonical(c)
  {
    var n := NormalizeName(name);
    NormalizeIsClean(name);
    forall c | c in Candidates(n) ensures Canonical(c) {
      assert c == "parts/" + n || c == "p/" + n;
      assert c[|c| - 1] == if n == "" then '/' else n[|n| - 1];
      CleanIsFixed(c);
      assert c[0] == 'p';
    }
  }

  // ---- Typed lines ----

  // How a numeral field is read; None where the source's conversion fails.
  datatype Numerals = Numerals(integer: string -> Option<int>, float: string -> Option<real>)

  // Kinds '1' to '5': sub-file reference, line, triangle, quadrilateral, conditional line.
  datatype ParsedLine = ParsedLine(kind: char, color: int, transform: Transform, points: seq<Vec3>, reference: string)

  datatype RowError = TooFewFields | BadColor | BadTransform | BadPoints

  datatype ParseError = ParseError(row: nat, reason: RowError)

  // A row is the list of its blank-separated fields.
  type Row = seq<string>

  function Need(kind: string): nat {
    if kind == "1" then 15
    else if kind == "2" then 8
    else if kind == "3" then 11
    else if kind == "4" || kind == "5" then 14
    else 0
  }

  function PointCount(kind: char): nat {
    match kind
    case '2' => 2
    case '3' => 3
    case '4' => 4
    case '5' => 4
    case _ => 0
  }

  /** What `flatten` relies on when it indexes a line's points. */
  predicate WellFormed(line: ParsedLine) {
    line.kind in "12345" && |line.points| == PointCount(line.kind)
  }

  function ParseFloats(values: seq<string>, num: Numerals): (r: Option<seq<real>>)
    ensures r.Some? <==> forall i :: 0 <= i < |values| ==> num.float(values[i]).Some?
    ensures r.Some? ==> |r.value| == |values|
                        && forall i :: 0 <= i < |values| ==> num.float(values[i]) == Some(r.value[i])
  {
    if values == [] then Some([])
    else
      match (num.float(values[0]), ParseFloats(values[1..], num))
      case (Some(v), Some(rest)) =>
        assert forall i :: 1 <= i < |values| ==> values[i] == values[1..][i - 1];
        Some([v] + rest)
      case _ =>
        assert forall i :: 0 <= i < |values| - 1 ==> values[1..][i] == values[i + 1];
        None
  }

  function Triples(values: seq<real>): (r: seq<Vec3>)
    requires |values| % 3 == 0
    ensures |r| == |values| / 3
    ensures forall i :: 0 <= i < |r| ==> r[i] == Vec3(values[3 * i], values[3 * i + 1], values[3 * i + 2])
  {
    seq(|values| / 3, i requires 0 <= i < |values| / 3 => Vec3(values[3 * i], values[3 * i + 1], values[3 * i + 2]))
  }

  function JoinFields(fields: seq<string>): string {
    if fields == [] then "" else if |fields| == 1 then fields[0] else fields[0] + " " + JoinFields(fields[1..])
  }

  function ParseRow(f: Row, num: Numerals): (r: Result<Option<ParsedLine>, RowError>)
  {
    if |f| == 0 || f[0] == "0" || Need(f[0]) == 0 then Ok(None)
    else if |f| < Need(f[0]) then Err(TooFewFields)
    else
      match num.integer(f[1])
      case None => Err(BadColor)
      case Some(color) =>
        if f[0] == "1" then
          match ParseFloats(f[2..14], num)
          case None => Err(BadTransform)
          case Some(v) =>
            Ok(Some(ParsedLine('1', color, Transform(v[3..12], Vec3(v[0], v[1], v[2])), [],
                               NormalizeName(JoinFields(f[14..])))))
        else
          match ParseFloats(f[2..Need(f[0])], num)
          case None => Err(BadPoints)
          case Some(v) => Ok(Some(ParsedLine(f[0][0], color, Identity(), Triples(v), "")))
  }

  // The lines of a file whose first row is numbered `from`, or its first bad row.
  function ParseRows(rows: seq<Row>, from: nat, num: Numerals): Result<seq<ParsedLine>, ParseError> {
    if rows == [] then Ok([])
    else
      match ParseRow(rows[0], num)
      case Err(e) => Err(ParseError(from, e))
      case Ok(line) =>
        var rest :- ParseRows(rows[1..], from + 1, num);
        Ok((if line.Some? then [line.value] else []) + rest)
  }

  method ParseSource(rows: seq<Row>, num: Numerals) returns (r: Result<seq<ParsedLine>, ParseError>)
    ensures r == ParseRows(rows, 1, num)
    ensures r.Ok? ==> forall line | line in r.value :: WellFormed(line)
    ensures r.Ok? <==> forall i :: 0 <= i < |rows| ==> ParseRow(rows[i], num).Ok?
    ensures r.Err? ==>
              && 1 <= r.error.row <= |rows|
              && ParseRow(rows[r.error.row - 1], num) == Err(r.error.reason)
              && forall j :: 0 <= j < r.error.row - 1 ==> ParseRow(rows[j], num).Ok?
  {
    var result: seq<ParsedLine> := [];
    ghost var whole := ParseRows(rows, 1, num);
    assert rows[0..] == rows;
    assert whole.Ok? ==> [] + whole.value == whole.value;
    for i := 0 to |rows|
      invariant var rest := ParseRows(rows[i..], i + 1, num);
                whole == if rest.Ok? then Ok(result + rest.value) else rest
      invariant forall line | line in result :: WellFormed(line)
      invariant forall j :: 0 <= j < i ==> ParseRow(rows[j], num).Ok?
    {
      assert rows[i..][0] == rows[i] && rows[i..][1..] == rows[i + 1..];
      var row := ParseRow(rows[i], num);
      if row.Err? {
        return Err(ParseError(i + 1, row.error));
      }
      RowIsWellFormed(rows[i], num);
      ghost var rest := ParseRows(rows[i + 1..], i + 2, num);
      if row.value.Some? {
        assert rest.Ok? ==> result + ([row.value.value] + rest.value) == (result + [row.value.value]) + rest.value;
        result := result + [row.value.value];
      } else {
        assert rest.Ok? ==> [] + rest.value == rest.value;
      }
    }
    assert rows[|rows|..] == [] && result + [] == result;
    r := Ok(result);
  }

  lemma RowIsWellFormed(f: Row, num: Numerals)
    ensures var r := ParseRow(f, num); r.Ok? && r.value.Some? ==> WellFormed(r.value.value)
  {
  }

  /** Every line of a parsed file has exactly the points its kind needs. */
  lemma {:induction false} ParsedLinesAreWellFormed(rows: seq<Row>, from: nat, num: Numerals)
    ensures var r := ParseRows(rows, from, num); r.Ok? ==> forall line | line in r.value :: WellFormed(line)
  {
    if rows != [] {
      RowIsWellFormed(rows[0], num);
      ParsedLinesAreWellFormed(rows[1..], from + 1, num);
    }
  }
}
