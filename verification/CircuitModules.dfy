/** The connection check of module circuits: wires, cables and expected nets. */
module CircuitModules {
  import opened Wrappers
  import opened Sequences
  import opened Text

  datatype Direction = Input | Output | PowerSource | PowerSink

  datatype Port = Port(id: string, direction: Option<Direction>, connector: Option<string>)

  datatype Part = Part(id: string, kind: string, ports: seq<Port>)

  datatype Placement = Placement(id: string, part_id: string)

  datatype Connection = Connection(id: string, from: string, to: string, cable_id: Option<string>)

  datatype Step = Step(id: string, placement_ids: seq<string>)

  datatype Project = Project(id: string, placements: seq<Placement>, steps: seq<Step>, expected_nets: seq<seq<string>>,
                             connections: Option<seq<Connection>>)

  const CABLE := "cable"
  const CABLED := "boson-ph2-3"
  const USB := "fit0529-usb"

  predicate Truthy(s: Option<string>) {
    s.Some? && s.value != ""
  }

  // Maps built from lists; a later entry replaces an earlier one with the same id.
  function ByPart(parts: seq<Part>): map<string, Part> {
    if parts == [] then map[] else ByPart(parts[..|parts| - 1])[parts[|parts| - 1].id := parts[|parts| - 1]]
  }

  function ById(placements: seq<Placement>): map<string, Placement> {
    if placements == [] then map[]
    else ById(placements[..|placements| - 1])[placements[|placements| - 1].id := placements[|placements| - 1]]
  }

  // ---- Ports ----

  type Ports = map<string, Port>

  function PortKey(placement: string, port: string): string {
    placement + ":" + port
  }

  predicate Usable(p: Port) {
    p.direction.Some? && Truthy(p.connector)
  }

  // The ports one placement offers, with their keys.
  function Offered(placement: Placement, byPart: map<string, Part>): seq<(string, Port)> {
    if placement.part_id in byPart && byPart[placement.part_id].kind != CABLE then
      var ports := byPart[placement.part_id].ports;
      seq(|ports|, i requires 0 <= i < |ports| => (PortKey(placement.id, ports[i].id), ports[i]))
    else []
  }

  function AllOffered(placements: seq<Placement>, byPart: map<string, Part>): seq<(string, Port)> {
    if placements == [] then []
    else AllOffered(placements[..|placements| - 1], byPart) + Offered(placements[|placements| - 1], byPart)
  }

  function Key(e: (string, Port)): string {
    e.0
  }

  function PortsFrom(es: seq<(string, Port)>): Ports {
    if es == [] then map[] else PortsFrom(es[..|es| - 1])[es[|es| - 1].0 := es[|es| - 1].1]
  }

  // Every port is usable and no two have one key.
  predicate Sound(es: seq<(string, Port)>) {
    NoDup(Map(Key, es)) && forall e | e in es :: Usable(e.1)
  }

  lemma {:induction false} PortsFromKeys(es: seq<(string, Port)>)
    ensures forall k :: k in PortsFrom(es) <==> k in Map(Key, es)
    ensures forall k | k in PortsFrom(es) :: (k, PortsFrom(es)[k]) in es
  {
    if es != [] {
      InitLast(es);
      PortsFromKeys(es[..|es| - 1]);
      assert Map(Key, es) == Map(Key, es[..|es| - 1]) + [es[|es| - 1].0];
    }
  }

  lemma SoundAppend(es: seq<(string, Port)>, e: (string, Port))
    ensures Sound(es + [e]) <==> Sound(es) && e.0 !in PortsFrom(es) && Usable(e.1)
    ensures PortsFrom(es + [e]) == PortsFrom(es)[e.0 := e.1]
  {
    assert (es + [e])[..|es|] == es && e == (es + [e])[|es|];
    assert Map(Key, es + [e]) == Map(Key, es) + [e.0];
    NoDupOne(Map(Key, es), e.0);
    PortsFromKeys(es);
    assert forall x :: x in es + [e] <==> x in es || x == e;
  }

  lemma SoundPrefix(a: seq<(string, Port)>, b: seq<(string, Port)>)
    requires Sound(a + b)
    ensures Sound(a)
  {
    assert Map(Key, a + b) == Map(Key, a) + Map(Key, b);
    NoDupConcat(Map(Key, a), Map(Key, b));
    assert forall x | x in a :: x in a + b;
  }

  lemma SoundThrough(a: seq<(string, Port)>, b: seq<(string, Port)>, j: nat)
    requires Sound(a + b) && j <= |b|
    ensures Sound(a + b[..j])
  {
    assert a + b == a + b[..j] + b[j..];
    SoundPrefix(a + b[..j], b[j..]);
  }

  lemma {:induction false} OfferedPrefix(placements: seq<Placement>, byPart: map<string, Part>, i: nat) returns (rest: seq<(string, Port)>)
    requires i <= |placements|
    ensures AllOffered(placements, byPart) == AllOffered(placements[..i], byPart) + rest
  {
    if i == |placements| {
      rest := [];
      assert placements[..i] == placements;
    } else {
      var init := placements[..|placements| - 1];
      rest := OfferedPrefix(init, byPart, i);
      assert init[..i] == placements[..i];
      rest := rest + Offered(placements[|placements| - 1], byPart);
    }
  }

  method CollectPorts(placements: seq<Placement>, byPart: map<string, Part>) returns (r: Option<Ports>)
    ensures r.Some? <==> (forall p | p in placements :: p.part_id in byPart) && Sound(AllOffered(placements, byPart))
    ensures r.Some? ==> r.value == PortsFrom(AllOffered(placements, byPart))
  {
    var ports: Ports := map[];
    for i := 0 to |placements|
      invariant forall p | p in placements[..i] :: p.part_id in byPart
      invariant Sound(AllOffered(placements[..i], byPart)) && ports == PortsFrom(AllOffered(placements[..i], byPart))
    {
      var placement := placements[i];
      assert placements[..i + 1] == placements[..i] + [placement];
      ghost var before := AllOffered(placements[..i], byPart);
      if placement.part_id !in byPart {
        return None;
      }
      var part := byPart[placement.part_id];
      ghost var rest := OfferedPrefix(placements, byPart, i + 1);
      assert placements[..i + 1][..i] == placements[..i];
      if part.kind != CABLE {
        var next := AddPorts(ports, before, placement, part.ports, byPart);
        if next.None? {
          assert !Sound(AllOffered(placements, byPart)) by {
            if Sound(AllOffered(placements, byPart)) {
              SoundPrefix(before + Offered(placement, byPart), rest);
            }
          }
          return None;
        }
        ports := next.value;
      } else {
        assert before + [] == before;
      }
    }
    assert placements[..|placements|] == placements;
    r := Some(ports);
  }

  lemma PortStep(before: seq<(string, Port)>, offered: seq<(string, Port)>, j: nat)
    requires j < |offered| && Sound(before + offered[..j])
    ensures PortsFrom(before + offered[..j + 1]) == PortsFrom(before + offered[..j])[offered[j].0 := offered[j].1]
    ensures offered[j].0 !in PortsFrom(before + offered[..j]) && Usable(offered[j].1) ==> Sound(before + offered[..j + 1])
    ensures offered[j].0 in PortsFrom(before + offered[..j]) || !Usable(offered[j].1) ==> !Sound(before + offered)
  {
    assert before + offered[..j] + [offered[j]] == before + offered[..j + 1];
    SoundAppend(before + offered[..j], offered[j]);
    if Sound(before + offered) {
      SoundThrough(before, offered, j + 1);
    }
  }

  method AddPorts(ports: Ports, ghost before: seq<(string, Port)>, placement: Placement, list: seq<Port>, ghost byPart: map<string, Part>)
    returns (r: Option<Ports>)
    requires Sound(before) && ports == PortsFrom(before)
    requires placement.part_id in byPart && byPart[placement.part_id].kind != CABLE && byPart[placement.part_id].ports == list
    ensures r.Some? <==> Sound(before + Offered(placement, byPart))
    ensures r.Some? ==> r.value == PortsFrom(before + Offered(placement, byPart))
  {
    var now := ports;
    ghost var offered := Offered(placement, byPart);
    assert before + offered[..0] == before;
    for j := 0 to |list|
      invariant Sound(before + offered[..j]) && now == PortsFrom(before + offered[..j])
    {
      var key := PortKey(placement.id, list[j].id);
      PortStep(before, offered, j);
      assert offered[j] == (key, list[j]);
      if key in now || list[j].direction.None? || !Truthy(list[j].connector) {
        return None;
      }
      now := now[key := list[j]];
    }
    assert offered[..|list|] == offered;
    r := Some(now);
  }

  // ---- Wires ----

  predicate Feeds(from: Direction, to: Direction) {
    (from == Output && to == Input) || (from == PowerSource && to == PowerSink)
  }

  // The wire's own conditions, apart from what other wires use.
  predicate Fits(w: Connection, ports: Ports, placed: map<string, Placement>, byPart: map<string, Part>) {
    && w.from in ports && w.to in ports && w.from != w.to
    && ports[w.from].connector == ports[w.to].connector
    && ports[w.from].direction.Some? && ports[w.to].direction.Some?
    && Feeds(ports[w.from].direction.value, ports[w.to].direction.value)
    && if ports[w.from].connector == Some(CABLED) then Truthy(w.cable_id) && IsCable(w.cable_id.value, placed, byPart)
       else ports[w.from].connector == Some(USB) && !Truthy(w.cable_id)
  }

  predicate IsCable(id: string, placed: map<string, Placement>, byPart: map<string, Part>) {
    id in placed && placed[id].part_id in byPart && byPart[placed[id].part_id].kind == CABLE
  }

  function EndsOf(w: Connection): seq<string> {
    [w.from, w.to]
  }

  function Ends(ws: seq<Connection>): seq<string> {
    if ws == [] then [] else Ends(ws[..|ws| - 1]) + [ws[|ws| - 1].from, ws[|ws| - 1].to]
  }

  function WireIds(ws: seq<Connection>): seq<string> {
    if ws == [] then [] else WireIds(ws[..|ws| - 1]) + [ws[|ws| - 1].id]
  }

  // The cable of each wire between cabled connectors.
  function CablesUsed(ws: seq<Connection>, ports: Ports): seq<string> {
    if ws == [] then []
    else
      var w := ws[|ws| - 1];
      CablesUsed(ws[..|ws| - 1], ports) + CableOf(w, ports)
  }

  // Each wire fits, and wires share no port, no cable and no id.
  ghost predicate Wired(ws: seq<Connection>, ports: Ports, placed: map<string, Placement>, byPart: map<string, Part>) {
    && (forall w | w in ws :: Fits(w, ports, placed, byPart))
    && NoDup(Ends(ws)) && NoDup(CablesUsed(ws, ports)) && NoDup(WireIds(ws))
  }

  lemma EndsAppend(ws: seq<Connection>, w: Connection)
    ensures Ends(ws + [w]) == Ends(ws) + [w.from, w.to] && WireIds(ws + [w]) == WireIds(ws) + [w.id]
  {
    assert (ws + [w])[..|ws|] == ws;
  }

  // The cable a wire takes up, if any.
  function CableOf(w: Connection, ports: Ports): seq<string> {
    if w.from in ports && ports[w.from].connector == Some(CABLED) && w.cable_id.Some? then [w.cable_id.value] else []
  }

  lemma CablesAppend(ws: seq<Connection>, w: Connection, ports: Ports)
    ensures CablesUsed(ws + [w], ports) == CablesUsed(ws, ports) + CableOf(w, ports)
    ensures NoDup(CablesUsed(ws + [w], ports)) <==>
            NoDup(CablesUsed(ws, ports)) && forall c | c in CableOf(w, ports) :: c !in CablesUsed(ws, ports)
  {
    assert (ws + [w])[..|ws|] == ws;
    var cables := CablesUsed(ws, ports);
    if CableOf(w, ports) == [] {
      assert cables + [] == cables;
    } else {
      NoDupOne(cables, w.cable_id.value);
    }
  }

  // The ports, cables and ids that wires have taken.
  datatype Taken = Taken(ports: set<string>, cables: set<string>, ids: set<string>)

  function TakenBy(ws: seq<Connection>, ports: Ports): Taken {
    Taken(Elements(Ends(ws)), Elements(CablesUsed(ws, ports)), Elements(WireIds(ws)))
  }

  function Take(t: Taken, w: Connection, ports: Ports): Taken {
    Taken(t.ports + Elements(EndsOf(w)), t.cables + Elements(CableOf(w, ports)), t.ids + {w.id})
  }

  // The wire fits and takes nothing that is taken.
  predicate Admitted(w: Connection, t: Taken, ports: Ports, placed: map<string, Placement>, byPart: map<string, Part>) {
    && Fits(w, ports, placed, byPart)
    && w.from !in t.ports && w.to !in t.ports && w.id !in t.ids
    && forall c | c in CableOf(w, ports) :: c !in t.cables
  }

  lemma TakenAppend(ws: seq<Connection>, w: Connection, ports: Ports)
    ensures TakenBy(ws + [w], ports) == Take(TakenBy(ws, ports), w, ports)
  {
    EndsAppend(ws, w);
    CablesAppend(ws, w, ports);
    ElementsConcat(Ends(ws), EndsOf(w));
    ElementsConcat(WireIds(ws), [w.id]);
    ElementsConcat(CablesUsed(ws, ports), CableOf(w, ports));
    assert Elements([w.id]) == {w.id};
  }

  lemma WiredAppend(ws: seq<Connection>, w: Connection, ports: Ports, placed: map<string, Placement>, byPart: map<string, Part>)
    ensures Wired(ws + [w], ports, placed, byPart) <==>
            Wired(ws, ports, placed, byPart) && Admitted(w, TakenBy(ws, ports), ports, placed, byPart)
  {
    EndsAppend(ws, w);
    NoDupTwo(Ends(ws), w.from, w.to);
    NoDupOne(WireIds(ws), w.id);
    CablesAppend(ws, w, ports);
    assert forall x :: x in ws + [w] <==> x in ws || x == w;
  }

  lemma {:induction false} WiredPrefix(ws: seq<Connection>, i: nat, ports: Ports, placed: map<string, Placement>, byPart: map<string, Part>)
    requires i <= |ws| && Wired(ws, ports, placed, byPart)
    ensures Wired(ws[..i], ports, placed, byPart)
  {
    if i < |ws| {
      var init, last := ws[..|ws| - 1], ws[|ws| - 1];
      assert ws == init + [last];
      WiredAppend(init, last, ports, placed, byPart);
      WiredPrefix(init, i, ports, placed, byPart);
      assert init[..i] == ws[..i];
    } else {
      assert ws[..i] == ws;
    }
  }

  method CheckWire(wire: Connection, taken: Taken, ports: Ports, placed: map<string, Placement>, byPart: map<string, Part>)
    returns (r: Option<Taken>)
    ensures r == if Admitted(wire, taken, ports, placed, byPart) then Some(Take(taken, wire, ports)) else None
  {
    if wire.from !in ports || wire.to !in ports || wire.id in taken.ids || wire.from in taken.ports || wire.to in taken.ports
       || wire.from == wire.to || ports[wire.from].connector != ports[wire.to].connector {
      return None;
    }
    var from, to := ports[wire.from], ports[wire.to];
    if !((from.direction == Some(Output) && to.direction == Some(Input))
         || (from.direction == Some(PowerSource) && to.direction == Some(PowerSink))) {
      return None;
    }
    var cables := taken.cables;
    assert from.connector == Some(CABLED) && Truthy(wire.cable_id) ==> wire.cable_id.value in CableOf(wire, ports);
    if from.connector == Some(CABLED) {
      if !Truthy(wire.cable_id) || wire.cable_id.value !in placed || placed[wire.cable_id.value].part_id !in byPart
         || byPart[placed[wire.cable_id.value].part_id].kind != CABLE || wire.cable_id.value in cables {
        return None;
      }
      cables := cables + {wire.cable_id.value};
    } else if from.connector != Some(USB) || Truthy(wire.cable_id) {
      return None;
    }
    assert cables == taken.cables + Elements(CableOf(wire, ports));
    assert taken.ports + {wire.from} + {wire.to} == taken.ports + Elements(EndsOf(wire));
    r := Some(Taken(taken.ports + {wire.from} + {wire.to}, cables, taken.ids + {wire.id}));
  }

  lemma WireStep(ws: seq<Connection>, i: nat, ports: Ports, placed: map<string, Placement>, byPart: map<string, Part>)
    requires i < |ws| && Wired(ws[..i], ports, placed, byPart)
    ensures Admitted(ws[i], TakenBy(ws[..i], ports), ports, placed, byPart) ==> Wired(ws[..i + 1], ports, placed, byPart)
    ensures !Admitted(ws[i], TakenBy(ws[..i], ports), ports, placed, byPart) ==> !Wired(ws, ports, placed, byPart)
    ensures TakenBy(ws[..i + 1], ports) == Take(TakenBy(ws[..i], ports), ws[i], ports)
  {
    assert ws[..i + 1] == ws[..i] + [ws[i]];
    WiredAppend(ws[..i], ws[i], ports, placed, byPart);
    TakenAppend(ws[..i], ws[i], ports);
    if Wired(ws, ports, placed, byPart) {
      WiredPrefix(ws, i + 1, ports, placed, byPart);
    }
  }

  method CheckWires(ws: seq<Connection>, ports: Ports, placed: map<string, Placement>, byPart: map<string, Part>)
    returns (r: Option<Taken>)
    ensures r == if Wired(ws, ports, placed, byPart) then Some(TakenBy(ws, ports)) else None
  {
    var taken := Taken({}, {}, {});
    assert taken == TakenBy([], ports);
    for i := 0 to |ws|
      invariant Wired(ws[..i], ports, placed, byPart)
      invariant taken == TakenBy(ws[..i], ports)
    {
      WireStep(ws, i, ports, placed, byPart);
      var next := CheckWire(ws[i], taken, ports, placed, byPart);
      if next.None? {
        return None;
      }
      taken := next.value;
    }
    assert ws[..|ws|] == ws;
    r := Some(taken);
  }

  // ---- Nets ----

  function Line(net: seq<string>): string {
    Join(SortText(net), '|')
  }

  // The text two lists of nets are compared by.
  function NetsKey(nets: seq<seq<string>>): string {
    Join(SortText(Map(Line, nets)), '\n')
  }

  function Bag(net: seq<string>): multiset<string> {
    multiset(net)
  }

  predicate Plain(net: seq<string>) {
    Free(net, '|') && Free(net, '\n')
  }

  lemma SortKeeps(q: seq<string>, x: string)
    ensures x in SortText(q) <==> x in q
  {
    Sorting.SortHas(CompareText, q, x);
  }

  lemma PlainSorted(net: seq<string>)
    requires Plain(net)
    ensures Plain(SortText(net))
  {
    forall s | s in SortText(net) ensures '|' !in s && '\n' !in s {
      SortKeeps(net, s);
    }
  }

  lemma PlainLine(net: seq<string>)
    requires Plain(net)
    ensures '\n' !in Line(net)
  {
    PlainSorted(net);
    JoinFree(SortText(net), '|', '\n');
  }

  // A line identifies its net among plain names, when one of the nets has two ends.
  lemma LineExact(net: seq<string>, pair: seq<string>)
    requires Plain(net) && Plain(pair) && |pair| == 2
    ensures Line(net) == Line(pair) <==> Bag(net) == Bag(pair)
  {
    PlainSorted(net);
    PlainSorted(pair);
    SortTextExact(net, pair);
    JoinHasSeparator(SortText(pair), '|');
    if Line(net) == Line(pair) && net != [] {
      JoinInjective(SortText(net), SortText(pair), '|');
    }
  }

  lemma KeyIsBagOfLines(a: seq<seq<string>>, b: seq<seq<string>>)
    requires b != [] && (forall net | net in b :: |net| == 2)
    requires (forall net | net in a :: Plain(net)) && (forall net | net in b :: Plain(net))
    ensures NetsKey(a) == NetsKey(b) <==> multiset(Map(Line, a)) == multiset(Map(Line, b))
  {
    var x, y := Map(Line, a), Map(Line, b);
    SortTextExact(x, y);
    FreeLines(a);
    FreeLines(b);
    var first := SortText(y)[0];
    assert first in SortText(y);
    SortKeeps(y, first);
    var i :| 0 <= i < |b| && y[i] == first;
    JoinHasSeparator(SortText(b[i]), '|');
    assert first != "";
    if a == [] {
      assert NetsKey(a) == "";
      if |y| > 1 {
        JoinHasSeparator(SortText(y), '\n');
      }
    } else if NetsKey(a) == NetsKey(b) {
      JoinInjective(SortText(x), SortText(y), '\n');
    }
  }

  lemma FreeLines(nets: seq<seq<string>>)
    requires forall net | net in nets :: Plain(net)
    ensures Free(SortText(Map(Line, nets)), '\n')
  {
    forall s | s in SortText(Map(Line, nets)) ensures '\n' !in s {
      SortKeeps(Map(Line, nets), s);
      var i :| 0 <= i < |nets| && Map(Line, nets)[i] == s;
      PlainLine(nets[i]);
    }
  }

  /**
   As long as no name contains a separator, comparing the joined texts decides
   exactly whether the expected nets are the connections' unordered pairs, each
   equally often.
   */
  lemma NetsKeyExact(a: seq<seq<string>>, b: seq<seq<string>>)
    requires b != [] && (forall net | net in b :: |net| == 2)
    requires (forall net | net in a :: Plain(net)) && (forall net | net in b :: Plain(net))
    ensures NetsKey(a) == NetsKey(b) <==> multiset(Map(Bag, a)) == multiset(Map(Bag, b))
  {
    KeyIsBagOfLines(a, b);
    forall x, y | x in a && y in b ensures Line(x) == Line(y) <==> Bag(x) == Bag(y) {
      LineExact(x, y);
    }
    if multiset(Map(Line, a)) == multiset(Map(Line, b)) {
      BagsMatch(Line, Bag, a, b);
    }
    if multiset(Map(Bag, a)) == multiset(Map(Bag, b)) {
      BagsMatch(Bag, Line, a, b);
    }
  }

  lemma SortOne(x: string)
    ensures SortText([x]) == [x]
  {
    assert [x][..0] == [];
    assert Sorting.Insert(CompareText, x, []) == [x];
  }

  lemma SortTwo(x: string, y: string)
    requires CompareText(y, x) >= 0
    ensures SortText([x, y]) == [x, y]
  {
    SortOne(x);
    assert [x, y][..1] == [x] && [x][1..] == [];
    assert Sorting.Insert(CompareText, y, []) == [y];
    assert Sorting.Insert(CompareText, y, [x]) == [x] + [y];
  }

  lemma JoinTwo(x: string, y: string)
    ensures Join([x, y], '|') == x + "|" + y
  {
    assert [x, y][1..] == [y];
    assert ['|'] == "|";
  }

  /** Equal bags of nets are never told apart, whatever the names. */
  lemma SameNetsSameKey(a: seq<seq<string>>, b: seq<seq<string>>)
    requires multiset(Map(Bag, a)) == multiset(Map(Bag, b))
    ensures NetsKey(a) == NetsKey(b)
  {
    forall x, y | x in a && y in b && Bag(x) == Bag(y) ensures Line(x) == Line(y) {
      SortTextExact(x, y);
    }
    BagsMatch(Bag, Line, a, b);
    SortTextExact(Map(Line, a), Map(Line, b));
  }

  /**
   When the connected names are free of separators, an accepted list of nets is
   really the connections' pairs exactly when its own names are free of them too.
   */
  lemma AcceptedNetsExactlyWhenPlain(nets: seq<seq<string>>, pairs: seq<seq<string>>)
    requires pairs != [] && forall net | net in pairs :: Plain(net) && |net| == 2
    requires NetsKey(nets) == NetsKey(pairs)
    ensures multiset(Map(Bag, nets)) == multiset(Map(Bag, pairs)) <==> forall net | net in nets :: Plain(net)
  {
    if forall net | net in nets :: Plain(net) {
      NetsKeyExact(nets, pairs);
    }
    if multiset(Map(Bag, nets)) == multiset(Map(Bag, pairs)) {
      forall net | net in nets ensures Plain(net) {
        var i :| 0 <= i < |nets| && nets[i] == net;
        var j := BagPartner(nets, pairs, i);
        PlainByBag(pairs[j], net);
      }
    }
  }

  lemma BagPartner(a: seq<seq<string>>, b: seq<seq<string>>, i: nat) returns (j: nat)
    requires i < |a| && multiset(Map(Bag, a)) == multiset(Map(Bag, b))
    ensures j < |b| && Bag(b[j]) == Bag(a[i])
  {
    assert Map(Bag, a)[i] in multiset(Map(Bag, a));
    assert Map(Bag, a)[i] in Map(Bag, b);
    j :| 0 <= j < |b| && Map(Bag, b)[j] == Map(Bag, a)[i];
  }

  lemma PlainByBag(a: seq<string>, b: seq<string>)
    requires Plain(a) && Bag(a) == Bag(b)
    ensures Plain(b)
  {
    forall s | s in b ensures '|' !in s && '\n' !in s {
      assert s in Bag(b);
      assert s in a;
    }
  }

  /** With a separator in a name the comparison accepts a net that is no connection at all. */
  lemma SeparatorConfusesNets(x: string, y: string)
    requires CompareText(y, x) >= 0
    ensures NetsKey([[x + "|" + y]]) == NetsKey([[x, y]])
    ensures multiset(Map(Bag, [[x + "|" + y]])) != multiset(Map(Bag, [[x, y]]))
  {
    var one, two := [x + "|" + y], [x, y];
    SortOne(one[0]);
    SortTwo(x, y);
    JoinTwo(x, y);
    assert Map(Line, [one]) == Map(Line, [two]);
    assert |Bag(one)| == 1 && |Bag(two)| == 2;
    assert Map(Bag, [one]) == [Bag(one)] && Map(Bag, [two]) == [Bag(two)];
    assert Bag(one) in multiset([Bag(one)]) && Bag(one) !in multiset([Bag(two)]);
  }

  // ---- The whole check ----

  predicate PlacesCable(p: Placement, byPart: map<string, Part>) {
    p.part_id in byPart && byPart[p.part_id].kind == CABLE
  }

  // The placements of cables.
  function CableIdsOf(placements: seq<Placement>, byPart: map<string, Part>): seq<string> {
    if placements == [] then []
    else
      var p := placements[|placements| - 1];
      CableIdsOf(placements[..|placements| - 1], byPart) + (if PlacesCable(p, byPart) then [p.id] else [])
  }

  // The wires pair up all ports of all modules, each exactly once, and every cable placement carries exactly one wire.
  ghost predicate PerfectlyWired(project: Project, parts: seq<Part>) {
    var byPart := ByPart(parts);
    var es := AllOffered(project.placements, byPart);
    && project.connections.Some? && project.connections.value != []
    && (forall p | p in project.placements :: p.part_id in byPart)
    && Sound(es)
    && Wired(project.connections.value, PortsFrom(es), ById(project.placements), byPart)
    && Covering(project.connections.value, PortsFrom(es), project.placements, byPart)
  }

  // No port is left open and no cable is left over.
  ghost predicate Covering(ws: seq<Connection>, ports: Ports, placements: seq<Placement>, byPart: map<string, Part>) {
    && Elements(Ends(ws)) == ports.Keys
    && Elements(CablesUsed(ws, ports)) == Elements(CableIdsOf(placements, byPart))
  }

  predicate AllCablesIn(placements: seq<Placement>, byPart: map<string, Part>, cables: set<string>) {
    forall p | p in placements && PlacesCable(p, byPart) :: p.id in cables
  }

  // Counting ports and looking up cables is enough, because wires only take what exists.
  lemma CoveringByCount(ws: seq<Connection>, ports: Ports, placements: seq<Placement>, byPart: map<string, Part>)
    requires Wired(ws, ports, ById(placements), byPart)
    ensures Covering(ws, ports, placements, byPart) <==>
            |TakenBy(ws, ports).ports| == |ports| && AllCablesIn(placements, byPart, TakenBy(ws, ports).cables)
  {
    EndsArePorts(ws, ports, ById(placements), byPart);
    SubsetSize(Elements(Ends(ws)), ports.Keys);
    assert |ports| == |ports.Keys|;
    CableIdsListed(placements, byPart);
    CablesArePlaced(ws, ports, placements, byPart);
    var cables, all := Elements(CablesUsed(ws, ports)), Elements(CableIdsOf(placements, byPart));
    if AllCablesIn(placements, byPart, cables) {
      assert all <= cables;
    }
    if cables == all {
      forall p | p in placements && PlacesCable(p, byPart) ensures p.id in cables {
        assert p.id in CableIdsOf(placements, byPart);
      }
    }
  }

  // What the check decides: a perfect wiring, and nets whose text is that of the connected pairs.
  ghost predicate Accepts(project: Project, parts: seq<Part>) {
    && PerfectlyWired(project, parts)
    && NetsKey(project.expected_nets) == NetsKey(Map(EndsOf, project.connections.value))
  }

  method ValidModuleConnections(project: Project, parts: seq<Part>) returns (ok: bool)
    ensures ok <==> Accepts(project, parts)
  {
    if project.connections.None? || |project.connections.value| == 0 {
      return false;
    }
    var ws := project.connections.value;
    var byPart := ByPart(parts);
    var placed := ById(project.placements);
    var ports := CollectPorts(project.placements, byPart);
    if ports.None? {
      return false;
    }
    var taken := CheckWires(ws, ports.value, placed, byPart);
    if taken.None? {
      return false;
    }
    CoveringByCount(ws, ports.value, project.placements, byPart);
    ok := |taken.value.ports| == |ports.value|
          && AllCablesIn(project.placements, byPart, taken.value.cables)
          && NetsKey(project.expected_nets) == NetsKey(Map(EndsOf, ws));
  }

  lemma {:induction false} EndsArePorts(ws: seq<Connection>, ports: Ports, placed: map<string, Placement>, byPart: map<string, Part>)
    requires forall w | w in ws :: Fits(w, ports, placed, byPart)
    ensures Elements(Ends(ws)) <= ports.Keys
  {
    if ws != [] {
      InitLast(ws);
      EndsArePorts(ws[..|ws| - 1], ports, placed, byPart);
      EndsAppend(ws[..|ws| - 1], ws[|ws| - 1]);
      assert Fits(ws[|ws| - 1], ports, placed, byPart);
    }
  }

  lemma {:induction false} PlacedIsListed(placements: seq<Placement>)
    ensures forall id | id in ById(placements) :: ById(placements)[id] in placements && ById(placements)[id].id == id
  {
    if placements != [] {
      InitLast(placements);
      PlacedIsListed(placements[..|placements| - 1]);
    }
  }

  lemma {:induction false} CablesArePlaced(ws: seq<Connection>, ports: Ports, placements: seq<Placement>, byPart: map<string, Part>)
    requires forall w | w in ws :: Fits(w, ports, ById(placements), byPart)
    ensures Elements(CablesUsed(ws, ports)) <= Elements(CableIdsOf(placements, byPart))
  {
    if ws != [] {
      InitLast(ws);
      CablesArePlaced(ws[..|ws| - 1], ports, placements, byPart);
      CablesAppend(ws[..|ws| - 1], ws[|ws| - 1], ports);
      assert Fits(ws[|ws| - 1], ports, ById(placements), byPart);
      PlacedIsListed(placements);
      CableIdsListed(placements, byPart);
    }
  }

  lemma {:induction false} CableIdsListed(placements: seq<Placement>, byPart: map<string, Part>)
    ensures forall id :: id in CableIdsOf(placements, byPart) <==>
              exists p :: p in placements && PlacesCable(p, byPart) && p.id == id
  {
    if placements != [] {
      InitLast(placements);
      CableIdsListed(placements[..|placements| - 1], byPart);
    }
  }

  // The wiring is perfect and the expected nets are the connected pairs, each equally often.
  ghost predicate Right(project: Project, parts: seq<Part>) {
    && PerfectlyWired(project, parts)
    && multiset(Map(Bag, project.expected_nets)) == multiset(Map(Bag, Map(EndsOf, project.connections.value)))
  }

  predicate PlainPairs(project: Project) {
    project.connections.Some? ==> forall w | w in project.connections.value :: Plain(EndsOf(w))
  }

  predicate PlainNets(project: Project) {
    forall net | net in project.expected_nets :: Plain(net)
  }

  lemma PairsArePlain(ws: seq<Connection>)
    requires forall w | w in ws :: Plain(EndsOf(w))
    ensures forall net | net in Map(EndsOf, ws) :: Plain(net) && |net| == 2
  {
    forall net | net in Map(EndsOf, ws) ensures Plain(net) && |net| == 2 {
      var i :| 0 <= i < |ws| && Map(EndsOf, ws)[i] == net;
      assert ws[i] in ws;
    }
  }

  /**
   The check never refuses a right project. When the connected names are free of
   separators, it accepts a wrong one exactly when the wiring is perfect, the
   texts agree, and an expected net has a separator in a name.
   */
  lemma CheckIsExact(project: Project, parts: seq<Part>)
    ensures Right(project, parts) ==> Accepts(project, parts)
    ensures PlainPairs(project) && Accepts(project, parts) ==> (Right(project, parts) <==> PlainNets(project))
  {
    if PerfectlyWired(project, parts) {
      var pairs := Map(EndsOf, project.connections.value);
      if Right(project, parts) {
        SameNetsSameKey(project.expected_nets, pairs);
      }
      if PlainPairs(project) && Accepts(project, parts) {
        PairsArePlain(project.connections.value);
        AcceptedNetsExactlyWhenPlain(project.expected_nets, pairs);
      }
    }
  }
}
