/** The circuit and assembly checks in the terms of their documents: port texts, connectors, kits and kinds of parts. */
module CircuitTerms {
  import opened Wrappers
  import opened Sequences
  import opened CircuitModules
  import Doc = CircuitDocument
  import Ref = AssemblyReference

  // ---- Parts and placements ----

  // The part with this id: the last one, if several have it.
  ghost predicate IsPart(parts: seq<Part>, id: string, q: Part) {
    exists i :: 0 <= i < |parts| && parts[i] == q && q.id == id && forall j :: i < j < |parts| ==> parts[j].id != id
  }

  ghost predicate IsPlacement(ps: seq<Placement>, id: string, p: Placement) {
    exists i :: 0 <= i < |ps| && ps[i] == p && p.id == id && forall j :: i < j < |ps| ==> ps[j].id != id
  }

  lemma {:induction false} PartFound(parts: seq<Part>, id: string, q: Part)
    ensures id in ByPart(parts) && ByPart(parts)[id] == q <==> IsPart(parts, id, q)
  {
    if parts != [] {
      var n := |parts| - 1;
      PartFound(parts[..n], id, q);
      if parts[n].id != id {
        if i :| 0 <= i < n && parts[..n][i] == q && q.id == id && forall j :: i < j < n ==> parts[..n][j].id != id {
          assert forall j :: i < j < |parts| ==> parts[j].id != id;
        }
        if i :| 0 <= i < |parts| && parts[i] == q && q.id == id && forall j :: i < j < |parts| ==> parts[j].id != id {
          assert parts[..n][i] == q && forall j :: i < j < n ==> parts[..n][j] == parts[j];
        }
      }
    }
  }

  lemma {:induction false} PlacementFound(ps: seq<Placement>, id: string, p: Placement)
    ensures id in ById(ps) && ById(ps)[id] == p <==> IsPlacement(ps, id, p)
  {
    if ps != [] {
      var n := |ps| - 1;
      PlacementFound(ps[..n], id, p);
      if ps[n].id != id {
        if i :| 0 <= i < n && ps[..n][i] == p && p.id == id && forall j :: i < j < n ==> ps[..n][j].id != id {
          assert forall j :: i < j < |ps| ==> ps[j].id != id;
        }
        if i :| 0 <= i < |ps| && ps[i] == p && p.id == id && forall j :: i < j < |ps| ==> ps[j].id != id {
          assert ps[..n][i] == p && forall j :: i < j < n ==> ps[..n][j] == ps[j];
        }
      }
    }
  }

  // ---- Ports and wires ----

  // A placed part that is no cable offers this port, under the placement's id and its own, with a colon between.
  ghost predicate Offers(ps: seq<Placement>, parts: seq<Part>, key: string, port: Port) {
    exists p, q :: p in ps && IsPart(parts, p.part_id, q) && q.kind != "cable" && port in q.ports && key == p.id + ":" + port.id
  }

  lemma OfferedHere(p: Placement, parts: seq<Part>, key: string, port: Port)
    ensures (key, port) in Offered(p, ByPart(parts)) <==>
            exists q :: IsPart(parts, p.part_id, q) && q.kind != "cable" && port in q.ports && key == p.id + ":" + port.id
  {
    var offered := Offered(p, ByPart(parts));
    if p.part_id in ByPart(parts) {
      var q := ByPart(parts)[p.part_id];
      PartFound(parts, p.part_id, q);
      if q.kind != "cable" && port in q.ports && key == p.id + ":" + port.id {
        var i :| 0 <= i < |q.ports| && q.ports[i] == port;
        assert offered[i] == (key, port);
      }
    }
    forall q | IsPart(parts, p.part_id, q) ensures p.part_id in ByPart(parts) && q == ByPart(parts)[p.part_id] {
      PartFound(parts, p.part_id, q);
    }
  }

  lemma {:induction false} PortsOffered(ps: seq<Placement>, parts: seq<Part>, key: string, port: Port)
    ensures (key, port) in AllOffered(ps, ByPart(parts)) <==> Offers(ps, parts, key, port)
  {
    if ps != [] {
      var init, p := ps[..|ps| - 1], ps[|ps| - 1];
      InitLast(ps);
      PortsOffered(init, parts, key, port);
      OfferedHere(p, parts, key, port);
    }
  }

  ghost predicate IsCablePlacement(ps: seq<Placement>, parts: seq<Part>, id: string) {
    exists p, q :: IsPlacement(ps, id, p) && IsPart(parts, p.part_id, q) && q.kind == "cable"
  }

  lemma CableFound(ps: seq<Placement>, parts: seq<Part>, id: string)
    ensures IsCable(id, ById(ps), ByPart(parts)) <==> IsCablePlacement(ps, parts, id)
  {
    if IsCable(id, ById(ps), ByPart(parts)) {
      var p := ById(ps)[id];
      PlacementFound(ps, id, p);
      PartFound(parts, p.part_id, ByPart(parts)[p.part_id]);
    }
    forall p, q | IsPlacement(ps, id, p) && IsPart(parts, p.part_id, q)
      ensures id in ById(ps) && ById(ps)[id] == p && p.part_id in ByPart(parts) && ByPart(parts)[p.part_id] == q
    {
      PlacementFound(ps, id, p);
      PartFound(parts, p.part_id, q);
    }
  }

  ghost predicate NoCable(w: Connection) {
    w.cable_id == None || w.cable_id == Some("")
  }

  // What a wire joins: an output to an input or a source to a sink, by one kind of connector, with a cable exactly if it needs one.
  ghost predicate Joins(w: Connection, from: Port, to: Port, ps: seq<Placement>, parts: seq<Part>) {
    && w.from != w.to && from.connector == to.connector
    && ((from.direction == Some(Output) && to.direction == Some(Input))
        || (from.direction == Some(PowerSource) && to.direction == Some(PowerSink)))
    && ((from.connector == Some("boson-ph2-3") && !NoCable(w) && IsCablePlacement(ps, parts, w.cable_id.value))
        || (from.connector == Some("fit0529-usb") && NoCable(w)))
  }

  lemma WireFitsExactly(w: Connection, ports: Ports, ps: seq<Placement>, parts: seq<Part>)
    ensures Fits(w, ports, ById(ps), ByPart(parts)) <==>
            w.from in ports && w.to in ports && Joins(w, ports[w.from], ports[w.to], ps, parts)
  {
    if !NoCable(w) {
      CableFound(ps, parts, w.cable_id.value);
    }
  }

  // ---- An accepted wiring ----

  lemma {:induction false} EndsAreEnds(ws: seq<Connection>, key: string)
    ensures key in Ends(ws) <==> exists w :: w in ws && (w.from == key || w.to == key)
  {
    if ws != [] {
      InitLast(ws);
      EndsAreEnds(ws[..|ws| - 1], key);
    }
  }

  lemma {:induction false} EndsOnce(ws: seq<Connection>, i: nat, j: nat)
    requires NoDup(Ends(ws)) && i < j < |ws|
    ensures ws[i].from != ws[j].from && ws[i].from != ws[j].to && ws[i].to != ws[j].from && ws[i].to != ws[j].to
  {
    var n := |ws| - 1;
    var init, last := ws[..n], ws[n];
    NoDupTwo(Ends(init), last.from, last.to);
    assert Ends(ws) == Ends(init) + [last.from, last.to];
    if j < n {
      EndsOnce(init, i, j);
    } else {
      assert init[i] in init;
      EndsAreEnds(init, last.from);
      EndsAreEnds(init, last.to);
    }
  }

  /**
   What an accepted wiring guarantees: every wire joins two offered ports; every
   offered port has a direction, a connector and its wire; and no two wires meet.
   */
  lemma AcceptedWiring(project: Project, parts: seq<Part>)
    requires Accepts(project, parts)
    ensures project.connections.Some? && project.connections.value != []
    ensures forall p | p in project.placements :: exists q :: IsPart(parts, p.part_id, q)
    ensures forall w | w in project.connections.value :: JoinsOffered(w, project.placements, parts)
    ensures forall key, port | Offers(project.placements, parts, key, port) ::
              && port.direction.Some? && port.connector.Some? && port.connector.value != ""
              && exists w :: w in project.connections.value && (w.from == key || w.to == key)
    ensures var ws := project.connections.value;
            forall i, j :: 0 <= i < j < |ws| ==>
              ws[i].from != ws[j].from && ws[i].from != ws[j].to && ws[i].to != ws[j].from && ws[i].to != ws[j].to
  {
    var ws, ps, byPart := project.connections.value, project.placements, ByPart(parts);
    var es := AllOffered(ps, byPart);
    var ports := PortsFrom(es);
    PortsFromKeys(es);
    forall p | p in ps ensures exists q :: IsPart(parts, p.part_id, q) {
      PartFound(parts, p.part_id, byPart[p.part_id]);
    }
    forall w | w in ws ensures JoinsOffered(w, ps, parts) {
      WireFitsExactly(w, ports, ps, parts);
      PortsOffered(ps, parts, w.from, ports[w.from]);
      PortsOffered(ps, parts, w.to, ports[w.to]);
    }
    forall key, port | Offers(ps, parts, key, port)
      ensures port.direction.Some? && port.connector.Some? && port.connector.value != ""
      ensures exists w :: w in ws && (w.from == key || w.to == key)
    {
      PortsOffered(ps, parts, key, port);
      KeyOf(es, key, port);
      assert key in ports.Keys && key in Elements(Ends(ws));
      EndsAreEnds(ws, key);
    }
    forall i, j | 0 <= i < j < |ws|
      ensures ws[i].from != ws[j].from && ws[i].from != ws[j].to && ws[i].to != ws[j].from && ws[i].to != ws[j].to
    {
      EndsOnce(ws, i, j);
    }
  }

  lemma KeyOf(es: seq<(string, Port)>, key: string, port: Port)
    requires (key, port) in es
    ensures key in Map(Key, es)
  {
    var i :| 0 <= i < |es| && es[i] == (key, port);
    assert Map(Key, es)[i] == key;
  }

  ghost predicate JoinsOffered(w: Connection, ps: seq<Placement>, parts: seq<Part>) {
    exists from, to :: Offers(ps, parts, w.from, from) && Offers(ps, parts, w.to, to) && Joins(w, from, to, ps, parts)
  }

  // ---- Documents ----

  /** The three operations, in truth values. */
  lemma OutputsAre(a: bool, b: bool)
    ensures Doc.Output(Doc.Direct, [a]) == a && Doc.Output(Doc.Not, [a]) == !a && Doc.Output(Doc.And, [a, b]) == (a && b)
  {
    assert false in [a] <==> !a;
    assert false in [a, b] <==> !a || !b;
  }

  ghost predicate Places(doc: Doc.Document, part: string) {
    exists p :: p in doc.project.placements && p.part_id == part
  }

  /**
   A composition takes one input, and for And two different ones. A document that
   is composed by its contents or its name must be of version 2 and of the one kit,
   and place its inputs, its output, the controller and the supply.
   */
  lemma CompositionSays(doc: Doc.Document, spec: Doc.Composition)
    requires doc.composition == Some(spec)
    ensures Doc.CompositionAccepted(spec) <==>
            if spec.operation == Doc.And then |spec.inputs| == 2 && spec.inputs[0] != spec.inputs[1] else |spec.inputs| == 1
    ensures Doc.FunctionVerified(doc) ==>
              && doc.version == 2 && doc.kit_id == "dfrobot-edu0080-en"
              && (forall part | part in spec.inputs :: Places(doc, part))
              && Places(doc, spec.output) && Places(doc, "BOS0036") && Places(doc, "FIT0529")
  {
    SizeCountsDistinct(spec.inputs);
    if |spec.inputs| == 2 {
      assert spec.inputs == [spec.inputs[0], spec.inputs[1]];
      NoDupAtTwo(spec.inputs);
    }
    if |spec.inputs| == 1 {
      assert spec.inputs == [spec.inputs[0]];
    }
    if Doc.FunctionVerified(doc) {
      forall part | part in spec.inputs + [spec.output, "BOS0036", "FIT0529"] ensures Places(doc, part) {
        var parts := Map(Doc.PartOf, doc.project.placements);
        assert part in parts;
        var i :| 0 <= i < |parts| && parts[i] == part;
        assert doc.project.placements[i] in doc.project.placements;
      }
      assert forall part | part in spec.inputs :: part in spec.inputs + [spec.output, "BOS0036", "FIT0529"];
      assert spec.output in spec.inputs + [spec.output, "BOS0036", "FIT0529"];
    }
  }

  lemma NoDupAtTwo(q: seq<string>)
    requires |q| == 2
    ensures NoDup(q) <==> q[0] != q[1]
  {
    assert q[..1] == [q[0]];
    NoDupOne([], q[0]);
    assert [] + [q[0]] == [q[0]] && NoDup([q[0]]);
  }

  /** Which documents need a verified function, and which systems go with which version. */
  lemma DocumentsSay(doc: Doc.Document)
    ensures Doc.Composed(doc) <==> doc.composition.Some? || doc.behavior.Some? || "boson-composed-" <= doc.project.id
    ensures Doc.SystemKnown(doc) <==> (doc.version == 2 ==> doc.system == Some(Doc.Boson)) && (doc.version == 1 ==> doc.system != Some(Doc.Boson))
  {
  }

  // ---- Assembly references ----

  ghost predicate IsElectronic(parts: seq<Ref.Part>, id: string) {
    exists p :: p in parts && p.id == id && p.kind.Electronics?
  }

  lemma {:induction false} ElectronicFound(parts: seq<Ref.Part>, id: string)
    requires NoDup(Map(Ref.PartId, parts))
    ensures Ref.Electronic(id, Ref.ById(parts)) <==> IsElectronic(parts, id)
    ensures id in Ref.ById(parts) <==> exists p :: p in parts && p.id == id
  {
    if parts != [] {
      var init, last := parts[..|parts| - 1], parts[|parts| - 1];
      InitLast(parts);
      assert Map(Ref.PartId, parts) == Map(Ref.PartId, init) + [last.id];
      assert Map(Ref.PartId, parts)[..|init|] == Map(Ref.PartId, init);
      ElectronicFound(init, id);
      forall p | p in init ensures p.id != last.id {
        var i :| 0 <= i < |init| && init[i] == p;
        assert Map(Ref.PartId, init)[i] == p.id;
      }
    }
  }

  /** The wires of a consistent reference join two different electronic parts, and no two have one text of controller and port. */
  lemma ConsistentWires(ref: Ref.Reference)
    requires Ref.Consistent(ref)
    ensures forall w | w in ref.connections ::
              IsElectronic(ref.parts, w.part_id) && IsElectronic(ref.parts, w.controller_id) && w.part_id != w.controller_id
    ensures var ws := ref.connections;
            forall i, j :: 0 <= i < j < |ws| ==> ws[i].controller_id + ":" + ws[i].port != ws[j].controller_id + ":" + ws[j].port
  {
    forall w | w in ref.connections
      ensures IsElectronic(ref.parts, w.part_id) && IsElectronic(ref.parts, w.controller_id) && w.part_id != w.controller_id
    {
      ElectronicFound(ref.parts, w.part_id);
      ElectronicFound(ref.parts, w.controller_id);
    }
    var ws := ref.connections;
    forall i, j | 0 <= i < j < |ws| ensures ws[i].controller_id + ":" + ws[i].port != ws[j].controller_id + ":" + ws[j].port {
      NoDupAt(Map(Ref.PortText, ws), i, j);
    }
  }
}
