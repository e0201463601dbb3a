/** The consistency check of assembly references: pictured parts, numbered steps and controller ports. */
module AssemblyReference {
  import opened Wrappers
  import opened Sequences

  type Quantity = n: int | 1 <= n <= 128 witness 1

  datatype Kind = Structure | Electronics

  datatype Part = Part(id: string, pictured_quantity: Quantity, kind: Kind)

  // The introduced parts are the entries of a record, in its own order.
  datatype Step = Step(number: Quantity, introduced_parts: seq<(string, Quantity)>)

  datatype Wire = Wire(part_id: string, controller_id: string, port: string)

  datatype Reference = Reference(parts: seq<Part>, steps: seq<Step>, connections: seq<Wire>, unresolved: seq<string>)

  function PartId(p: Part): string {
    p.id
  }

  function ById(parts: seq<Part>): (r: map<string, Part>)
    ensures r.Keys == Elements(Map(PartId, parts))
  {
    if parts == [] then map[]
    else
      var init, last := parts[..|parts| - 1], parts[|parts| - 1];
      assert Map(PartId, parts) == Map(PartId, init) + [last.id];
      ById(init)[last.id := last]
  }

  // ---- Totals ----

  function AddEntries(totals: map<string, int>, entries: seq<(string, Quantity)>): map<string, int> {
    if entries == [] then totals
    else
      var m, e := AddEntries(totals, entries[..|entries| - 1]), entries[|entries| - 1];
      m[e.0 := (if e.0 in m then m[e.0] else 0) + e.1]
  }

  function Totals(steps: seq<Step>): map<string, int> {
    if steps == [] then map[] else AddEntries(Totals(steps[..|steps| - 1]), steps[|steps| - 1].introduced_parts)
  }

  function EntriesOf(id: string, entries: seq<(string, Quantity)>): nat {
    if entries == [] then 0
    else
      var e := entries[|entries| - 1];
      EntriesOf(id, entries[..|entries| - 1]) + if e.0 == id then e.1 else 0
  }

  // How many of this part the steps introduce.
  function Introduced(id: string, steps: seq<Step>): nat {
    if steps == [] then 0 else Introduced(id, steps[..|steps| - 1]) + EntriesOf(id, steps[|steps| - 1].introduced_parts)
  }

  predicate Known(entries: seq<(string, Quantity)>, parts: map<string, Part>) {
    forall e | e in entries :: e.0 in parts
  }

  // Numbered from one, each introducing something and only pictured parts.
  ghost predicate InOrder(steps: seq<Step>, parts: map<string, Part>) {
    forall i | 0 <= i < |steps| ::
      steps[i].number == i + 1 && steps[i].introduced_parts != [] && Known(steps[i].introduced_parts, parts)
  }

  method AddStep(totals: map<string, int>, entries: seq<(string, Quantity)>, parts: map<string, Part>)
    returns (r: Option<map<string, int>>)
    ensures r == if Known(entries, parts) then Some(AddEntries(totals, entries)) else None
  {
    var sums := totals;
    for j := 0 to |entries|
      invariant Known(entries[..j], parts) && sums == AddEntries(totals, entries[..j])
    {
      var (id, count) := entries[j];
      assert entries[j] in entries;
      assert entries[..j + 1][..j] == entries[..j] && entries[..j + 1] == entries[..j] + [entries[j]];
      if id !in parts {
        return None;
      }
      sums := sums[id := (if id in sums then sums[id] else 0) + count];
    }
    assert entries[..|entries|] == entries;
    r := Some(sums);
  }

  method SumSteps(steps: seq<Step>, parts: map<string, Part>) returns (r: Option<map<string, int>>)
    ensures r.Some? <==> InOrder(steps, parts)
    ensures r.Some? ==> r.value == Totals(steps)
  {
    var totals: map<string, int> := map[];
    for index := 0 to |steps|
      invariant InOrder(steps[..index], parts) && totals == Totals(steps[..index])
    {
      var step := steps[index];
      assert steps[..index + 1][..index] == steps[..index];
      if step.number != index + 1 || |step.introduced_parts| == 0 {
        return None;
      }
      var next := AddStep(totals, step.introduced_parts, parts);
      if next.None? {
        return None;
      }
      totals := next.value;
    }
    assert steps[..|steps|] == steps;
    r := Some(totals);
  }

  function At(totals: map<string, int>, id: string): int {
    if id in totals then totals[id] else 0
  }

  lemma {:induction false} AddEntriesAt(totals: map<string, int>, entries: seq<(string, Quantity)>, id: string)
    ensures At(AddEntries(totals, entries), id) == At(totals, id) + EntriesOf(id, entries)
    ensures id in AddEntries(totals, entries) <==> id in totals || EntriesOf(id, entries) > 0
  {
    if entries != [] {
      AddEntriesAt(totals, entries[..|entries| - 1], id);
    }
  }

  lemma {:induction false} TotalsAt(steps: seq<Step>, id: string)
    ensures At(Totals(steps), id) == Introduced(id, steps)
    ensures id in Totals(steps) <==> Introduced(id, steps) > 0
  {
    if steps != [] {
      TotalsAt(steps[..|steps| - 1], id);
      AddEntriesAt(Totals(steps[..|steps| - 1]), steps[|steps| - 1].introduced_parts, id);
    }
  }

  predicate TotalsMatch(totals: map<string, int>, parts: seq<Part>) {
    forall p | p in parts :: p.id in totals && totals[p.id] == p.pictured_quantity
  }

  // ---- Controller ports ----

  function PortText(w: Wire): string {
    w.controller_id + [':'] + w.port
  }

  function Port(w: Wire): (string, string) {
    (w.controller_id, w.port)
  }

  predicate Electronic(id: string, parts: map<string, Part>) {
    id in parts && parts[id].kind == Electronics
  }

  predicate Wirable(w: Wire, parts: map<string, Part>) {
    Electronic(w.part_id, parts) && Electronic(w.controller_id, parts) && w.part_id != w.controller_id
  }

  ghost predicate WiresOk(ws: seq<Wire>, parts: map<string, Part>) {
    (forall w | w in ws :: Wirable(w, parts)) && NoDup(Map(PortText, ws))
  }

  lemma {:induction false} WiresOkPrefix(ws: seq<Wire>, i: nat, parts: map<string, Part>)
    requires i <= |ws| && WiresOk(ws, parts)
    ensures WiresOk(ws[..i], parts)
  {
    assert Map(PortText, ws) == Map(PortText, ws[..i]) + Map(PortText, ws[i..]);
    NoDupConcat(Map(PortText, ws[..i]), Map(PortText, ws[i..]));
  }

  lemma WireStep(ws: seq<Wire>, i: nat, parts: map<string, Part>)
    requires i < |ws| && WiresOk(ws[..i], parts)
    ensures WiresOk(ws[..i + 1], parts) <==> Wirable(ws[i], parts) && PortText(ws[i]) !in Elements(Map(PortText, ws[..i]))
    ensures !WiresOk(ws[..i + 1], parts) ==> !WiresOk(ws, parts)
    ensures Elements(Map(PortText, ws[..i + 1])) == Elements(Map(PortText, ws[..i])) + {PortText(ws[i])}
  {
    assert ws[..i + 1] == ws[..i] + [ws[i]];
    assert Map(PortText, ws[..i + 1]) == Map(PortText, ws[..i]) + [PortText(ws[i])];
    NoDupOne(Map(PortText, ws[..i]), PortText(ws[i]));
    if WiresOk(ws, parts) {
      WiresOkPrefix(ws, i + 1, parts);
    }
  }

  method CheckWires(ws: seq<Wire>, parts: map<string, Part>) returns (ok: bool)
    ensures ok <==> WiresOk(ws, parts)
  {
    var ports: set<string> := {};
    for i := 0 to |ws|
      invariant WiresOk(ws[..i], parts) && ports == Elements(Map(PortText, ws[..i]))
    {
      var wire := ws[i];
      WireStep(ws, i, parts);
      var port := PortText(wire);
      if !Electronic(wire.part_id, parts) || !Electronic(wire.controller_id, parts)
         || wire.part_id == wire.controller_id || port in ports {
        return false;
      }
      ports := ports + {port};
    }
    assert ws[..|ws|] == ws;
    ok := true;
  }

  /**
   Port texts tell different controllers apart, except exactly when one id
   continues the other after a colon.
   */
  lemma ControllersConfusedExactly(c: string, d: string)
    requires c != d
    ensures (exists p, q | p != "" && q != "" :: c + [':'] + p == d + [':'] + q) <==> c + [':'] <= d || d + [':'] <= c
  {
    if c + [':'] <= d {
      ConfusingPorts(c, d);
    } else if d + [':'] <= c {
      ConfusingPorts(d, c);
    }
    if p, q :| p != "" && q != "" && c + [':'] + p == d + [':'] + q {
      PrefixOfBoth(c, p, d, q);
      PrefixOfBoth(d, q, c, p);
    }
  }

  lemma ConfusingPorts(c: string, d: string)
    requires c + [':'] <= d
    ensures exists p, q | p != "" && q != "" :: c + [':'] + p == d + [':'] + q
    ensures exists p, q | p != "" && q != "" :: d + [':'] + p == c + [':'] + q
  {
    var p := d[|c| + 1..] + [':'] + "1";
    assert c + [':'] + p == d + [':'] + "1";
  }

  lemma PrefixOfBoth(c: string, p: string, d: string, q: string)
    requires c + [':'] + p == d + [':'] + q
    ensures |c| < |d| ==> c + [':'] <= d
    ensures |c| == |d| ==> c == d
  {
    var s := c + [':'] + p;
    assert s[..|c|] == c && s[..|d|] == d;
    if |c| < |d| {
      assert s[..|c| + 1] == c + [':'];
      assert d[..|c| + 1] == c + [':'];
    }
  }

  // No part id continues another after a colon.
  predicate ColonSafe(ids: seq<string>) {
    forall c, d | c in ids && d in ids :: !(c + [':'] <= d)
  }

  lemma PortTextExact(v: Wire, w: Wire, ids: seq<string>)
    requires v.controller_id in ids && w.controller_id in ids && ColonSafe(ids)
    ensures PortText(v) == PortText(w) <==> Port(v) == Port(w)
  {
    if PortText(v) == PortText(w) {
      PrefixOfBoth(v.controller_id, v.port, w.controller_id, w.port);
      PrefixOfBoth(w.controller_id, w.port, v.controller_id, v.port);
      assert PortText(v)[|v.controller_id| + 1..] == v.port;
      assert PortText(w)[|w.controller_id| + 1..] == w.port;
    }
  }

  /** Then the text keys decide that no two wires share a controller's port. */
  lemma {:induction false} PortsUnique(ws: seq<Wire>, ids: seq<string>)
    requires ColonSafe(ids) && forall w | w in ws :: w.controller_id in ids
    ensures NoDup(Map(PortText, ws)) <==> NoDup(Map(Port, ws))
  {
    if ws != [] {
      var init, last := ws[..|ws| - 1], ws[|ws| - 1];
      InitLast(ws);
      PortsUnique(init, ids);
      assert Map(PortText, ws) == Map(PortText, init) + [PortText(last)];
      assert Map(Port, ws) == Map(Port, init) + [Port(last)];
      forall i | 0 <= i < |init| ensures Map(PortText, init)[i] == PortText(last) <==> Map(Port, init)[i] == Port(last) {
        assert init[i] in init;
        PortTextExact(init[i], last, ids);
      }
      assert PortText(last) in Map(PortText, init) <==> Port(last) in Map(Port, init);
      NoDupOne(Map(PortText, init), PortText(last));
      NoDupOne(Map(Port, init), Port(last));
    }
  }

  // ---- The whole check ----

  // What an accepted reference guarantees.
  ghost predicate Consistent(ref: Reference) {
    && NoDup(Map(PartId, ref.parts))
    && InOrder(ref.steps, ById(ref.parts))
    && (forall p | p in ref.parts :: Introduced(p.id, ref.steps) == p.pictured_quantity)
    && WiresOk(ref.connections, ById(ref.parts))
    && NoDup(ref.unresolved)
  }

  method AcceptReference(ref: Reference) returns (ok: bool)
    ensures ok <==> Consistent(ref)
  {
    var parts := ById(ref.parts);
    SizeCountsDistinct(Map(PartId, ref.parts));
    assert |parts| == |parts.Keys|;
    if |parts| != |ref.parts| {
      return false;
    }
    var totals := SumSteps(ref.steps, parts);
    if totals.None? {
      return false;
    }
    forall p | p in ref.parts ensures
      p.id in totals.value && totals.value[p.id] == p.pictured_quantity <==> Introduced(p.id, ref.steps) == p.pictured_quantity
    {
      TotalsAt(ref.steps, p.id);
    }
    if !TotalsMatch(totals.value, ref.parts) {
      return false;
    }
    ok := CheckWires(ref.connections, parts);
    SizeCountsDistinct(ref.unresolved);
    ok := ok && |Elements(ref.unresolved)| == |ref.unresolved|;
  }

  /** Building up an accepted reference, no step ever introduces more of a part than is pictured. */
  lemma {:induction false} PrefixNeverExceeds(ref: Reference, p: Part, k: nat)
    requires Consistent(ref) && p in ref.parts && k <= |ref.steps|
    ensures Introduced(p.id, ref.steps[..k]) <= p.pictured_quantity
  {
    IntroducedGrows(p.id, ref.steps, k);
  }

  lemma {:induction false} IntroducedGrows(id: string, steps: seq<Step>, k: nat)
    requires k <= |steps|
    ensures Introduced(id, steps[..k]) <= Introduced(id, steps)
  {
    if k < |steps| {
      IntroducedGrows(id, steps[..|steps| - 1], k);
      assert steps[..|steps| - 1][..k] == steps[..k];
    } else {
      assert steps[..k] == steps;
    }
  }

  // ---- Conservation ----

  function CountEntries(entries: seq<(string, Quantity)>): nat {
    if entries == [] then 0 else CountEntries(entries[..|entries| - 1]) + entries[|entries| - 1].1
  }

  // All pieces the steps introduce.
  function Pieces(steps: seq<Step>): nat {
    if steps == [] then 0 else Pieces(steps[..|steps| - 1]) + CountEntries(steps[|steps| - 1].introduced_parts)
  }

  function Pictured(parts: seq<Part>): nat {
    if parts == [] then 0 else Pictured(parts[..|parts| - 1]) + parts[|parts| - 1].pictured_quantity
  }

  // The pieces of these parts among the entries, and among the steps.
  function EntriesFor(parts: seq<Part>, entries: seq<(string, Quantity)>): nat {
    if parts == [] then 0 else EntriesFor(parts[..|parts| - 1], entries) + EntriesOf(parts[|parts| - 1].id, entries)
  }

  function IntroducedFor(parts: seq<Part>, steps: seq<Step>): nat {
    if parts == [] then 0 else IntroducedFor(parts[..|parts| - 1], steps) + Introduced(parts[|parts| - 1].id, steps)
  }

  lemma {:induction false} EntryOnce(parts: seq<Part>, entries: seq<(string, Quantity)>, e: (string, Quantity))
    requires NoDup(Map(PartId, parts))
    ensures EntriesFor(parts, entries + [e]) == EntriesFor(parts, entries) + if e.0 in Map(PartId, parts) then e.1 else 0
  {
    if parts != [] {
      var init, last := parts[..|parts| - 1], parts[|parts| - 1];
      assert Map(PartId, parts) == Map(PartId, init) + [last.id];
      NoDupOne(Map(PartId, init), last.id);
      EntryOnce(init, entries, e);
      assert (entries + [e])[..|entries|] == entries;
    }
  }

  lemma {:induction false} EntriesForNone(parts: seq<Part>)
    ensures EntriesFor(parts, []) == 0
  {
    if parts != [] {
      EntriesForNone(parts[..|parts| - 1]);
    }
  }

  lemma {:induction false} EntriesAllCounted(parts: seq<Part>, entries: seq<(string, Quantity)>)
    requires NoDup(Map(PartId, parts)) && Known(entries, ById(parts))
    ensures EntriesFor(parts, entries) == CountEntries(entries)
  {
    if entries == [] {
      EntriesForNone(parts);
    } else {
      var init, last := entries[..|entries| - 1], entries[|entries| - 1];
      InitLast(entries);
      EntriesAllCounted(parts, init);
      EntryOnce(parts, init, last);
    }
  }

  lemma {:induction false} IntroducedForStep(parts: seq<Part>, steps: seq<Step>)
    requires steps != []
    ensures IntroducedFor(parts, steps)
         == IntroducedFor(parts, steps[..|steps| - 1]) + EntriesFor(parts, steps[|steps| - 1].introduced_parts)
  {
    if parts != [] {
      IntroducedForStep(parts[..|parts| - 1], steps);
    }
  }

  lemma {:induction false} IntroducedForNone(parts: seq<Part>)
    ensures IntroducedFor(parts, []) == 0
  {
    if parts != [] {
      IntroducedForNone(parts[..|parts| - 1]);
    }
  }

  lemma {:induction false} AllPiecesCounted(parts: seq<Part>, steps: seq<Step>)
    requires NoDup(Map(PartId, parts)) && InOrder(steps, ById(parts))
    ensures IntroducedFor(parts, steps) == Pieces(steps)
  {
    if steps == [] {
      IntroducedForNone(parts);
    } else {
      AllPiecesCounted(parts, steps[..|steps| - 1]);
      IntroducedForStep(parts, steps);
      EntriesAllCounted(parts, steps[|steps| - 1].introduced_parts);
    }
  }

  lemma {:induction false} PicturedIsIntroduced(parts: seq<Part>, steps: seq<Step>)
    requires forall p | p in parts :: Introduced(p.id, steps) == p.pictured_quantity
    ensures Pictured(parts) == IntroducedFor(parts, steps)
  {
    if parts != [] {
      InitLast(parts);
      PicturedIsIntroduced(parts[..|parts| - 1], steps);
    }
  }

  /** An accepted reference uses up its pieces: the steps introduce as many as the pictures show. */
  lemma PiecesConserved(ref: Reference)
    requires Consistent(ref)
    ensures Pieces(ref.steps) == Pictured(ref.parts)
  {
    AllPiecesCounted(ref.parts, ref.steps);
    PicturedIsIntroduced(ref.parts, ref.steps);
  }
}
