/** The refinements of a circuit document: build steps, behaviour table and parts evidence. */
module CircuitDocument {
  import opened Wrappers
  import opened Sequences
  import opened Text
  import opened CircuitModules

  // ---- Build steps ----

  function UsedBy(steps: seq<Step>): seq<string> {
    if steps == [] then [] else UsedBy(steps[..|steps| - 1]) + steps[|steps| - 1].placement_ids
  }

  function PlacementId(p: Placement): string {
    p.id
  }

  function StepId(s: Step): string {
    s.id
  }

  predicate StepsAccepted(project: Project) {
    var placements := Elements(Map(PlacementId, project.placements));
    var steps := Elements(Map(StepId, project.steps));
    var used := UsedBy(project.steps);
    && |placements| == |project.placements|
    && |steps| == |project.steps|
    && |Elements(used)| == |used|
    && |used| == |placements|
    && forall id | id in used :: id in placements
  }

  // How often the steps place this placement.
  function TimesPlaced(steps: seq<Step>, id: string): nat {
    if steps == [] then 0
    else TimesPlaced(steps[..|steps| - 1], id) + multiset(steps[|steps| - 1].placement_ids)[id]
  }

  lemma {:induction false} TimesPlacedIsUse(steps: seq<Step>, id: string)
    ensures TimesPlaced(steps, id) == multiset(UsedBy(steps))[id]
  {
    if steps != [] {
      TimesPlacedIsUse(steps[..|steps| - 1], id);
    }
  }

  /** The comparison of sizes decides that the steps place every placement exactly once, and nothing else. */
  lemma StepsPartitionPlacements(project: Project)
    ensures StepsAccepted(project) <==>
            && NoDup(Map(PlacementId, project.placements))
            && NoDup(Map(StepId, project.steps))
            && forall id :: TimesPlaced(project.steps, id) == if id in Map(PlacementId, project.placements) then 1 else 0
  {
    var ids, used := Map(PlacementId, project.placements), UsedBy(project.steps);
    SizeCountsDistinct(ids);
    SizeCountsDistinct(Map(StepId, project.steps));
    SizeCountsDistinct(used);
    ExactListing(used, Elements(ids));
    forall id ensures TimesPlaced(project.steps, id) == multiset(used)[id] {
      TimesPlacedIsUse(project.steps, id);
    }
    assert forall id :: multiset(Elements(ids))[id] == if id in ids then 1 else 0;
    assert Elements(used) <= Elements(ids) <==> forall id | id in used :: id in Elements(ids);
    if forall id :: TimesPlaced(project.steps, id) == if id in ids then 1 else 0 {
      assert forall id :: multiset(used)[id] == multiset(Elements(ids))[id];
      assert multiset(used) == multiset(Elements(ids));
    }
  }

  // ---- Behaviour table ----

  datatype Operation = Direct | Not | And

  datatype Composition = Composition(inputs: seq<string>, operation: Operation, output: string)

  datatype Row = Row(inputs: map<string, bool>, powered: bool, expected: bool, actual: bool)

  datatype Behavior = Behavior(passed: bool, cases: seq<Row>)

  function Pow2(n: nat): nat {
    if n == 0 then 1 else 2 * Pow2(n - 1)
  }

  function Values(row: Row, inputs: seq<string>): seq<Option<bool>> {
    seq(|inputs|, i requires 0 <= i < |inputs| => if inputs[i] in row.inputs then Some(row.inputs[inputs[i]]) else None)
  }

  function BoolText(b: bool): string {
    if b then "true" else "false"
  }

  function ValueText(v: Option<bool>): string {
    if v.Some? then BoolText(v.value) else ""
  }

  function RowKey(inputs: seq<string>): Row -> string {
    (row: Row) => BoolText(row.powered) + [':'] + Join(Map(ValueText, Values(row, inputs)), ':')
  }

  predicate AllHigh(values: seq<Option<bool>>) {
    forall v | v in values :: v == Some(true)
  }

  function Expected(row: Row, spec: Composition): bool {
    var values := Values(row, spec.inputs);
    row.powered && if spec.operation == Not then values == [] || values[0] != Some(true) else AllHigh(values)
  }

  predicate RowOk(row: Row, spec: Composition) {
    && |row.inputs| == |spec.inputs|
    && (forall v | v in Values(row, spec.inputs) :: v.Some?)
    && row.expected == Expected(row, spec)
    && row.actual == row.expected
  }

  predicate RowsOk(rows: seq<Row>, spec: Composition) {
    && (forall row | row in rows :: RowOk(row, spec))
    && NoDup(Map(RowKey(spec.inputs), rows))
  }

  function PoweredRows(rows: seq<Row>): seq<Row> {
    if rows == [] then []
    else PoweredRows(rows[..|rows| - 1]) + (if rows[|rows| - 1].powered then [rows[|rows| - 1]] else [])
  }

  lemma RowsOkAppend(rows: seq<Row>, row: Row, spec: Composition)
    ensures RowsOk(rows + [row], spec) <==>
            RowsOk(rows, spec) && RowOk(row, spec) && RowKey(spec.inputs)(row) !in Map(RowKey(spec.inputs), rows)
  {
    var key := RowKey(spec.inputs);
    assert Map(key, rows + [row]) == Map(key, rows) + [key(row)];
    NoDupOne(Map(key, rows), key(row));
    assert forall x :: x in rows + [row] <==> x in rows || x == row;
  }

  function KeysOf(rows: seq<Row>, inputs: seq<string>): set<string> {
    Elements(Map(RowKey(inputs), rows))
  }

  lemma RowStep(rows: seq<Row>, i: nat, spec: Composition)
    requires i < |rows|
    ensures RowsOk(rows[..i + 1], spec) <==>
            RowsOk(rows[..i], spec) && RowOk(rows[i], spec) && RowKey(spec.inputs)(rows[i]) !in KeysOf(rows[..i], spec.inputs)
    ensures KeysOf(rows[..i + 1], spec.inputs) == KeysOf(rows[..i], spec.inputs) + {RowKey(spec.inputs)(rows[i])}
  {
    var key := RowKey(spec.inputs);
    assert rows[..i + 1] == rows[..i] + [rows[i]];
    RowsOkAppend(rows[..i], rows[i], spec);
    assert Map(key, rows[..i + 1]) == Map(key, rows[..i]) + [key(rows[i])];
  }

  // The table's sizes: one row more than the powered rows, one powered row for each assignment.
  predicate Sized(spec: Composition, rows: seq<Row>) {
    |rows| == Pow2(|spec.inputs|) + 1 && |PoweredRows(rows)| == Pow2(|spec.inputs|)
  }

  method CheckRows(spec: Composition, behavior: Behavior) returns (valid: bool)
    ensures valid <==> behavior.passed && Sized(spec, behavior.cases) && RowsOk(behavior.cases, spec)
  {
    var rows := behavior.cases;
    var keys: set<string> := {};
    valid := behavior.passed && |rows| == Pow2(|spec.inputs|) + 1;
    for i := 0 to |rows|
      invariant valid <==> behavior.passed && |rows| == Pow2(|spec.inputs|) + 1 && RowsOk(rows[..i], spec)
      invariant keys == KeysOf(rows[..i], spec.inputs)
    {
      var key := RowKey(spec.inputs)(rows[i]);
      RowStep(rows, i, spec);
      valid := valid && RowOk(rows[i], spec) && key !in keys;
      keys := keys + {key};
    }
    assert rows[..|rows|] == rows;
    valid := valid && |PoweredRows(rows)| == Pow2(|spec.inputs|);
  }

  // ---- What a table means ----

  function Assignment(row: Row, inputs: seq<string>): seq<bool> {
    seq(|inputs|, i requires 0 <= i < |inputs| => inputs[i] in row.inputs && row.inputs[inputs[i]])
  }

  // What the composed circuit shows for the values of its inputs.
  function Output(operation: Operation, values: seq<bool>): bool {
    if operation == Not then values == [] || !values[0] else false !in values
  }

  // All assignments of n inputs.
  function Assignments(n: nat): set<seq<bool>> {
    if n == 0 then {[]} else Extend(Assignments(n - 1), false) + Extend(Assignments(n - 1), true)
  }

  function Extend(s: set<seq<bool>>, b: bool): set<seq<bool>> {
    set a | a in s :: a + [b]
  }

  lemma ExtendMembers(s: set<seq<bool>>, b: bool, a: seq<bool>)
    ensures a in Extend(s, b) <==> a != [] && a[|a| - 1] == b && a[..|a| - 1] in s
  {
    if a != [] && a[|a| - 1] == b && a[..|a| - 1] in s {
      assert a == a[..|a| - 1] + [b];
    }
    if a in Extend(s, b) {
      var c :| c in s && a == c + [b];
      assert a[..|a| - 1] == c;
    }
  }

  lemma ExtendOne(s: set<seq<bool>>, b: bool, x: seq<bool>)
    requires x in s
    ensures Extend(s, b) == Extend(s - {x}, b) + {x + [b]}
    ensures x + [b] !in Extend(s - {x}, b)
  {
    ExtendMembers(s - {x}, b, x + [b]);
    assert (x + [b])[..|x|] == x;
  }

  lemma {:induction false} ExtendSize(s: set<seq<bool>>, b: bool)
    ensures |Extend(s, b)| == |s|
  {
    if s != {} {
      var x :| x in s;
      ExtendSize(s - {x}, b);
      ExtendOne(s, b, x);
    }
  }

  lemma {:induction false} AssignmentsHave(n: nat, a: seq<bool>)
    ensures a in Assignments(n) <==> |a| == n
  {
    if n > 0 {
      ExtendMembers(Assignments(n - 1), false, a);
      ExtendMembers(Assignments(n - 1), true, a);
      if a != [] {
        AssignmentsHave(n - 1, a[..|a| - 1]);
      }
    }
  }

  lemma ExtendsDiffer(s: set<seq<bool>>)
    ensures Extend(s, false) !! Extend(s, true)
  {
    forall a | a in Extend(s, false) ensures a !in Extend(s, true) {
      ExtendMembers(s, false, a);
      ExtendMembers(s, true, a);
    }
  }

  lemma {:induction false} AssignmentsCount(n: nat)
    ensures |Assignments(n)| == Pow2(n)
  {
    if n > 0 {
      AssignmentsCount(n - 1);
      ExtendSize(Assignments(n - 1), false);
      ExtendSize(Assignments(n - 1), true);
      ExtendsDiffer(Assignments(n - 1));
    }
  }

  lemma AssignmentsAreAll(n: nat)
    ensures |Assignments(n)| == Pow2(n)
    ensures forall a :: a in Assignments(n) <==> |a| == n
  {
    AssignmentsCount(n);
    forall a ensures a in Assignments(n) <==> |a| == n {
      AssignmentsHave(n, a);
    }
  }

  // The assignments of the rows with this power, in order.
  function Side(rows: seq<Row>, powered: bool, inputs: seq<string>): seq<seq<bool>> {
    if rows == [] then []
    else
      var row := rows[|rows| - 1];
      Side(rows[..|rows| - 1], powered, inputs) + (if row.powered == powered then [Assignment(row, inputs)] else [])
  }

  // The row gives a value to every input, to nothing else, and shows the right output.
  ghost predicate Answers(row: Row, spec: Composition) {
    && row.inputs.Keys == Elements(spec.inputs)
    && row.expected == (row.powered && Output(spec.operation, Assignment(row, spec.inputs)))
    && row.actual == row.expected
  }

  // Every powered assignment in one row, one unpowered row, every row right.
  ghost predicate CompleteTable(spec: Composition, behavior: Behavior) {
    && behavior.passed
    && (forall row | row in behavior.cases :: Answers(row, spec))
    && CoversInputs(behavior.cases, spec.inputs)
  }

  ghost predicate CoversInputs(rows: seq<Row>, inputs: seq<string>) {
    && multiset(Side(rows, true, inputs)) == multiset(Assignments(|inputs|))
    && |Side(rows, false, inputs)| == 1
  }

  lemma BoolTextFree(v: Option<bool>)
    ensures ':' !in ValueText(v)
  {
    assert forall c | c in "true" :: c != ':';
    assert forall c | c in "false" :: c != ':';
  }

  lemma TextsDiffer()
    ensures "true" != "false" && "true" != "" && "false" != ""
  {
    assert |"true"| == 4 && |"false"| == 5;
  }

  lemma ValueTextsExact(a: seq<Option<bool>>, b: seq<Option<bool>>)
    requires |a| == |b|
    ensures Join(Map(ValueText, a), ':') == Join(Map(ValueText, b), ':') <==> a == b
  {
    if a != [] && Join(Map(ValueText, a), ':') == Join(Map(ValueText, b), ':') {
      forall v ensures ':' !in ValueText(v) {
        BoolTextFree(v);
      }
      JoinInjective(Map(ValueText, a), Map(ValueText, b), ':');
      TextsDiffer();
      forall i | 0 <= i < |a| ensures a[i] == b[i] {
        assert Map(ValueText, a)[i] == Map(ValueText, b)[i];
      }
    }
  }

  // The text key of a row says exactly its power and its values.
  lemma RowKeyExact(r: Row, s: Row, inputs: seq<string>)
    ensures RowKey(inputs)(r) == RowKey(inputs)(s) <==> r.powered == s.powered && Values(r, inputs) == Values(s, inputs)
  {
    ValueTextsExact(Values(r, inputs), Values(s, inputs));
    if RowKey(inputs)(r) == RowKey(inputs)(s) {
      BoolTextFree(Some(r.powered));
      BoolTextFree(Some(s.powered));
      SplitAt(BoolText(r.powered), BoolText(s.powered),
              Join(Map(ValueText, Values(r, inputs)), ':'), Join(Map(ValueText, Values(s, inputs)), ':'), ':');
      TextsDiffer();
    }
  }

  predicate Full(row: Row, inputs: seq<string>) {
    forall v | v in Values(row, inputs) :: v.Some?
  }

  lemma AssignmentIsValues(r: Row, s: Row, inputs: seq<string>)
    requires Full(r, inputs) && Full(s, inputs)
    ensures Assignment(r, inputs) == Assignment(s, inputs) <==> Values(r, inputs) == Values(s, inputs)
  {
    forall i | 0 <= i < |inputs|
      ensures Values(r, inputs)[i] == Some(Assignment(r, inputs)[i]) && Values(s, inputs)[i] == Some(Assignment(s, inputs)[i])
    {
      assert Values(r, inputs)[i] in Values(r, inputs) && Values(s, inputs)[i] in Values(s, inputs);
    }
  }

  lemma {:induction false} KeyInSide(rows: seq<Row>, row: Row, inputs: seq<string>)
    requires Full(row, inputs) && forall r | r in rows :: Full(r, inputs)
    ensures RowKey(inputs)(row) in Map(RowKey(inputs), rows) <==> Assignment(row, inputs) in Side(rows, row.powered, inputs)
  {
    if rows != [] {
      var init, last := rows[..|rows| - 1], rows[|rows| - 1];
      InitLast(rows);
      KeyInSide(init, row, inputs);
      assert Map(RowKey(inputs), rows) == Map(RowKey(inputs), init) + [RowKey(inputs)(last)];
      RowKeyExact(row, last, inputs);
      AssignmentIsValues(row, last, inputs);
    }
  }

  lemma SideAppend(rows: seq<Row>, row: Row, inputs: seq<string>)
    ensures Side(rows + [row], row.powered, inputs) == Side(rows, row.powered, inputs) + [Assignment(row, inputs)]
    ensures Side(rows + [row], !row.powered, inputs) == Side(rows, !row.powered, inputs)
    ensures Map(RowKey(inputs), rows + [row]) == Map(RowKey(inputs), rows) + [RowKey(inputs)(row)]
  {
    assert (rows + [row])[..|rows|] == rows;
  }

  predicate SidesDistinct(rows: seq<Row>, powered: bool, inputs: seq<string>) {
    NoDup(Side(rows, powered, inputs)) && NoDup(Side(rows, !powered, inputs))
  }

  lemma DistinctStep(rows: seq<Row>, row: Row, inputs: seq<string>)
    requires Full(row, inputs) && forall r | r in rows :: Full(r, inputs)
    requires NoDup(Map(RowKey(inputs), rows)) <==> SidesDistinct(rows, row.powered, inputs)
    ensures NoDup(Map(RowKey(inputs), rows + [row])) <==> SidesDistinct(rows + [row], row.powered, inputs)
  {
    SideAppend(rows, row, inputs);
    KeyInSide(rows, row, inputs);
    NoDupOne(Map(RowKey(inputs), rows), RowKey(inputs)(row));
    NoDupOne(Side(rows, row.powered, inputs), Assignment(row, inputs));
  }

  lemma {:induction false} KeysDistinctBySide(rows: seq<Row>, inputs: seq<string>)
    requires forall r | r in rows :: Full(r, inputs)
    ensures NoDup(Map(RowKey(inputs), rows)) <==> SidesDistinct(rows, true, inputs)
  {
    if rows != [] {
      var init, last := rows[..|rows| - 1], rows[|rows| - 1];
      InitLast(rows);
      KeysDistinctBySide(init, inputs);
      DistinctStep(init, last, inputs);
    }
  }

  lemma {:induction false} SidesSplit(rows: seq<Row>, inputs: seq<string>)
    ensures |Side(rows, true, inputs)| + |Side(rows, false, inputs)| == |rows|
    ensures |PoweredRows(rows)| == |Side(rows, true, inputs)|
    ensures forall p, a | a in Side(rows, p, inputs) :: |a| == |inputs|
  {
    if rows != [] {
      SidesSplit(rows[..|rows| - 1], inputs);
    }
  }

  lemma OutputIsExpected(row: Row, spec: Composition)
    requires Full(row, spec.inputs)
    ensures Expected(row, spec) == (row.powered && Output(spec.operation, Assignment(row, spec.inputs)))
  {
    var values, bits := Values(row, spec.inputs), Assignment(row, spec.inputs);
    forall i | 0 <= i < |values| ensures values[i] == Some(bits[i]) {
      assert values[i] in values;
    }
    if AllHigh(values) && false in bits {
      var i :| 0 <= i < |bits| && bits[i] == false;
      assert values[i] in values;
    }
    if !AllHigh(values) {
      var v :| v in values && v != Some(true);
      var i :| 0 <= i < |values| && values[i] == v;
      assert bits[i] in bits;
    }
  }

  lemma FullByKeys(row: Row, inputs: seq<string>)
    ensures Full(row, inputs) <==> Elements(inputs) <= row.inputs.Keys
  {
    if Full(row, inputs) {
      forall i | 0 <= i < |inputs| ensures inputs[i] in row.inputs {
        assert Values(row, inputs)[i] in Values(row, inputs);
      }
    }
  }

  // A count of values and a look at each input pin down the row's inputs.
  lemma RowOkIsAnswer(row: Row, spec: Composition)
    requires NoDup(spec.inputs)
    ensures RowOk(row, spec) <==> Answers(row, spec)
  {
    SizeCountsDistinct(spec.inputs);
    assert |row.inputs| == |row.inputs.Keys|;
    FullByKeys(row, spec.inputs);
    if Full(row, spec.inputs) {
      SubsetSize(Elements(spec.inputs), row.inputs.Keys);
      OutputIsExpected(row, spec);
    }
  }

  lemma ShortIsDistinct<T>(q: seq<T>)
    requires |q| == 1
    ensures NoDup(q)
  {
    assert q[..0] == [];
  }

  lemma CoveredByCount(rows: seq<Row>, spec: Composition)
    ensures CoversInputs(rows, spec.inputs) <==> Sized(spec, rows) && SidesDistinct(rows, true, spec.inputs)
  {
    var inputs := spec.inputs;
    var on, off, all := Side(rows, true, inputs), Side(rows, false, inputs), Assignments(|inputs|);
    SidesSplit(rows, inputs);
    AssignmentsAreAll(|inputs|);
    ExactListing(on, all);
    assert Elements(on) <= all;
    assert |multiset(on)| == |on| && |multiset(all)| == |all|;
    if |off| == 1 {
      ShortIsDistinct(off);
    }
  }

  /**
   For any number of distinct inputs: counting rows, powered rows and distinct
   keys decides exactly that the table is complete and right.
   */
  lemma TableDecided(spec: Composition, behavior: Behavior)
    requires NoDup(spec.inputs)
    ensures CompleteTable(spec, behavior) <==>
            behavior.passed && Sized(spec, behavior.cases) && RowsOk(behavior.cases, spec)
  {
    forall row | row in behavior.cases ensures (RowOk(row, spec) <==> Answers(row, spec)) && (RowOk(row, spec) ==> Full(row, spec.inputs)) {
      RowOkIsAnswer(row, spec);
    }
    if forall row | row in behavior.cases :: RowOk(row, spec) {
      KeysDistinctBySide(behavior.cases, spec.inputs);
      CoveredByCount(behavior.cases, spec);
    }
  }

  lemma {:induction false} SideAt(rows: seq<Row>, a: seq<bool>, inputs: seq<string>) returns (i: nat)
    requires a in Side(rows, true, inputs)
    ensures i < |rows| && rows[i].powered && Assignment(rows[i], inputs) == a
    ensures NoDup(Side(rows, true, inputs)) ==>
              forall j | 0 <= j < |rows| && rows[j].powered && Assignment(rows[j], inputs) == a :: j == i
  {
    var init, last := rows[..|rows| - 1], rows[|rows| - 1];
    if last.powered {
      NoDupOne(Side(init, true, inputs), Assignment(last, inputs));
    } else {
      assert Side(rows, true, inputs) == Side(init, true, inputs);
    }
    if a in Side(init, true, inputs) {
      i := SideAt(init, a, inputs);
      assert forall j | 0 <= j < |init| :: rows[j] == init[j];
    } else {
      i := |rows| - 1;
      NotInSide(init, a, inputs);
      assert forall j | 0 <= j < |init| :: rows[j] == init[j] && init[j] in init;
    }
  }

  lemma {:induction false} NotInSide(rows: seq<Row>, a: seq<bool>, inputs: seq<string>)
    requires a !in Side(rows, true, inputs)
    ensures forall r | r in rows && r.powered :: Assignment(r, inputs) != a
  {
    if rows != [] {
      InitLast(rows);
      NotInSide(rows[..|rows| - 1], a, inputs);
    }
  }

  /** In a complete table every powered assignment has exactly one row, which shows the right output. */
  lemma EveryAssignmentOnce(spec: Composition, behavior: Behavior, a: seq<bool>) returns (i: nat)
    requires CompleteTable(spec, behavior) && |a| == |spec.inputs|
    ensures i < |behavior.cases| && behavior.cases[i].powered && Assignment(behavior.cases[i], spec.inputs) == a
    ensures behavior.cases[i].actual == Output(spec.operation, a)
    ensures forall j | 0 <= j < |behavior.cases| && behavior.cases[j].powered && Assignment(behavior.cases[j], spec.inputs) == a ::
              j == i
  {
    AssignmentsAreAll(|a|);
    var side := Side(behavior.cases, true, spec.inputs);
    ExactListing(side, Assignments(|a|));
    assert a in multiset(side);
    i := SideAt(behavior.cases, a, spec.inputs);
    assert behavior.cases[i] in behavior.cases;
  }

  // ---- The whole document ----

  datatype System = Snap | Boson

  datatype Validation = Validation(passed: bool, used_parts: map<string, nat>, issues: seq<string>)

  datatype Document = Document(version: int, system: Option<System>, kit_id: string, composition: Option<Composition>,
                               behavior: Option<Behavior>, project: Project, parts: seq<Part>,
                               inventory: map<string, nat>, validation: Validation)

  const COMPOSED := "boson-composed-"
  const KIT := "dfrobot-edu0080-en"
  const CONTROLLER := "BOS0036"
  const SUPPLY := "FIT0529"

  function PartOf(p: Placement): string {
    p.part_id
  }

  function IdOfPart(p: Part): string {
    p.id
  }

  predicate CompositionAccepted(spec: Composition) {
    |Elements(spec.inputs)| == |spec.inputs| && |spec.inputs| == if spec.operation == And then 2 else 1
  }

  predicate Composed(doc: Document) {
    doc.composition.Some? || doc.behavior.Some? || COMPOSED <= doc.project.id
  }

  predicate PartsFor(spec: Composition, placements: seq<Placement>) {
    forall id | id in spec.inputs + [spec.output, CONTROLLER, SUPPLY] :: id in Elements(Map(PartOf, placements))
  }

  // A composed document comes with a complete, right table for parts that it really places.
  ghost predicate FunctionVerified(doc: Document) {
    && doc.composition.Some? && doc.behavior.Some? && doc.version == 2 && doc.kit_id == KIT
    && CompleteTable(doc.composition.value, doc.behavior.value)
    && PartsFor(doc.composition.value, doc.project.placements)
  }

  method CheckFunction(doc: Document) returns (ok: bool)
    requires doc.composition.Some? ==> CompositionAccepted(doc.composition.value)
    ensures ok <==> (Composed(doc) ==> FunctionVerified(doc))
  {
    if !Composed(doc) {
      return true;
    }
    ok := doc.composition.Some? && doc.behavior.Some? && doc.version == 2 && doc.kit_id == KIT;
    if doc.composition.Some? && doc.behavior.Some? {
      var spec, behavior := doc.composition.value, doc.behavior.value;
      SizeCountsDistinct(spec.inputs);
      TableDecided(spec, behavior);
      var rows := CheckRows(spec, behavior);
      ok := ok && rows && PartsFor(spec, doc.project.placements);
    }
  }

  // The counts the placements add up to.
  function Counts(placements: seq<Placement>): map<string, nat> {
    if placements == [] then map[]
    else
      var m, id := Counts(placements[..|placements| - 1]), placements[|placements| - 1].part_id;
      m[id := Stock(m, id) + 1]
  }

  function Stock(m: map<string, nat>, id: string): nat {
    if id in m then m[id] else 0
  }

  lemma {:induction false} CountsAreMultiplicities(placements: seq<Placement>, id: string)
    ensures Stock(Counts(placements), id) == multiset(Map(PartOf, placements))[id]
    ensures id in Counts(placements) <==> id in Map(PartOf, placements)
  {
    if placements != [] {
      var init, last := placements[..|placements| - 1], placements[|placements| - 1];
      CountsAreMultiplicities(init, id);
      assert Map(PartOf, placements) == Map(PartOf, init) + [last.part_id];
    }
  }

  predicate PartsKnown(placements: seq<Placement>, byPart: map<string, Part>) {
    forall p | p in placements :: p.part_id in byPart
  }

  lemma CountStep(ps: seq<Placement>, i: nat, byPart: map<string, Part>)
    requires i < |ps|
    ensures Counts(ps[..i + 1]) == Counts(ps[..i])[ps[i].part_id := Stock(Counts(ps[..i]), ps[i].part_id) + 1]
    ensures PartsKnown(ps[..i + 1], byPart) <==> PartsKnown(ps[..i], byPart) && ps[i].part_id in byPart
  {
    assert ps[..i + 1][..i] == ps[..i];
    InitLast(ps[..i + 1]);
  }

  method CountParts(doc: Document, byPart: map<string, Part>) returns (known: bool, counts: map<string, nat>)
    ensures known <==> |byPart| == |doc.parts| && PartsKnown(doc.project.placements, byPart)
    ensures counts == Counts(doc.project.placements)
  {
    var ps := doc.project.placements;
    counts, known := map[], |byPart| == |doc.parts|;
    for i := 0 to |ps|
      invariant known <==> |byPart| == |doc.parts| && PartsKnown(ps[..i], byPart)
      invariant counts == Counts(ps[..i])
    {
      CountStep(ps, i, byPart);
      known := known && ps[i].part_id in byPart;
      counts := counts[ps[i].part_id := Stock(counts, ps[i].part_id) + 1];
    }
    assert ps[..|ps|] == ps;
  }

  lemma {:induction false} PartsById(parts: seq<Part>)
    ensures ByPart(parts).Keys == Elements(Map(IdOfPart, parts))
    ensures |ByPart(parts)| == |parts| <==> NoDup(Map(IdOfPart, parts))
  {
    SizeCountsDistinct(Map(IdOfPart, parts));
    if parts != [] {
      var init, last := parts[..|parts| - 1], parts[|parts| - 1];
      PartsById(init);
      assert Map(IdOfPart, parts) == Map(IdOfPart, init) + [last.id];
      ElementsConcat(Map(IdOfPart, init), [last.id]);
    }
    assert |ByPart(parts)| == |ByPart(parts).Keys|;
  }

  predicate EvidenceAccepted(doc: Document, counts: map<string, nat>) {
    doc.validation.passed ==>
      && doc.validation.issues == []
      && |counts| == |doc.validation.used_parts|
      && forall id | id in counts ::
           id in doc.validation.used_parts && doc.validation.used_parts[id] == counts[id] && Stock(doc.inventory, id) >= counts[id]
  }

  // The evidence names exactly the placed parts, each as often as placed and no more often than owned.
  ghost predicate EvidenceTrue(doc: Document) {
    var ids := Map(PartOf, doc.project.placements);
    && doc.validation.issues == []
    && (forall id :: id in doc.validation.used_parts <==> id in ids)
    && forall id | id in doc.validation.used_parts ::
         doc.validation.used_parts[id] == multiset(ids)[id] <= Stock(doc.inventory, id)
  }

  /** Comparing sizes and the counted entries is comparing the two maps. */
  lemma EvidenceDecided(doc: Document)
    ensures EvidenceAccepted(doc, Counts(doc.project.placements)) <==> (doc.validation.passed ==> EvidenceTrue(doc))
  {
    var counts, used := Counts(doc.project.placements), doc.validation.used_parts;
    forall id
      ensures Stock(counts, id) == multiset(Map(PartOf, doc.project.placements))[id]
      ensures id in counts <==> id in Map(PartOf, doc.project.placements)
    {
      CountsAreMultiplicities(doc.project.placements, id);
    }
    assert |counts| == |counts.Keys| && |used| == |used.Keys|;
    if counts.Keys <= used.Keys {
      SubsetSize(counts.Keys, used.Keys);
    }
    if doc.validation.passed && EvidenceTrue(doc) {
      assert counts.Keys == used.Keys;
    }
  }

  predicate SystemKnown(doc: Document) {
    !((doc.version == 2 && doc.system != Some(Boson)) || (doc.version == 1 && doc.system == Some(Boson)))
  }

  // What an accepted document guarantees.
  ghost predicate Trusted(doc: Document) {
    && (doc.composition.Some? ==> CompositionAccepted(doc.composition.value))
    && StepsAccepted(doc.project)
    && (Composed(doc) ==> FunctionVerified(doc))
    && SystemKnown(doc) && (doc.version == 2 ==> Accepts(doc.project, doc.parts))
    && NoDup(Map(IdOfPart, doc.parts)) && (forall p | p in doc.project.placements :: p.part_id in Map(IdOfPart, doc.parts))
    && (doc.validation.passed ==> EvidenceTrue(doc))
  }

  method AcceptDocument(doc: Document) returns (ok: bool)
    ensures ok <==> Trusted(doc)
  {
    if (doc.composition.Some? && !CompositionAccepted(doc.composition.value)) || !StepsAccepted(doc.project) {
      return false;
    }
    ok := CheckFunction(doc);
    if doc.version == 2 && doc.system == Some(Boson) {
      var wired := ValidModuleConnections(doc.project, doc.parts);
      ok := ok && wired;
    } else {
      ok := ok && SystemKnown(doc);
    }
    PartsById(doc.parts);
    var known, counts := CountParts(doc, ByPart(doc.parts));
    EvidenceDecided(doc);
    ok := ok && known && EvidenceAccepted(doc, counts);
  }
}
