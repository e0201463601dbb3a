/** Merging batches of task messages into one list ordered by sequence number. */
module SeqMerge {
  import opened Sequences
  import opened Sorting

  // Payloads compare by value; the code's reference tests only decide whether an array is reused.
  datatype Message = Message(number: int, payload: string)

  type Index = map<int, Message>

  // Strictly increasing sequence numbers.
  ghost predicate Increasing(q: seq<Message>) {
    forall i, j :: 0 <= i < j < |q| ==> q[i].number < q[j].number
  }

  // ---- Specification ----

  // The map a list builds: a later entry for the same number replaces the earlier one.
  function AsMap(q: seq<Message>): Index {
    if q == [] then map[] else AsMap(q[..|q| - 1])[q[|q| - 1].number := q[|q| - 1]]
  }

  // An incoming message is kept out by an earlier one unless the batch is authoritative.
  function Accept(m: Index, x: Message, authoritative: bool): Index {
    if x.number in m && !authoritative then m else m[x.number := x]
  }

  function AcceptAll(m: Index, xs: seq<Message>, authoritative: bool): Index {
    if xs == [] then m else Accept(AcceptAll(m, xs[..|xs| - 1], authoritative), xs[|xs| - 1], authoritative)
  }

  // Some message of the batch alters the map at its turn.
  predicate Changes(m: Index, xs: seq<Message>, authoritative: bool) {
    xs != [] &&
    (Changes(m, xs[..|xs| - 1], authoritative)
     || Accept(AcceptAll(m, xs[..|xs| - 1], authoritative), xs[|xs| - 1], authoritative)
        != AcceptAll(m, xs[..|xs| - 1], authoritative))
  }

  ghost function Pick<T>(s: set<T>): (x: T)
    requires s != {}
    ensures x in s
  {
    var x :| x in s;
    x
  }

  ghost function Greatest(s: set<int>): (k: int)
    requires s != {}
    ensures k in s && forall j | j in s :: j <= k
  {
    var x := Pick(s);
    if s == {x} then x
    else
      var y := Greatest(s - {x});
      assert forall j | j in s :: j == x || j in s - {x};
      if x < y then y else x
  }

  // The map's messages by ascending number.
  ghost function ListOf(m: Index): seq<Message>
    decreases |m|
  {
    if m == map[] then [] else var k := Greatest(m.Keys); ListOf(m - {k}) + [m[k]]
  }

  // Every message is filed under its own number.
  ghost predicate Filed(m: Index) {
    forall k | k in m :: m[k].number == k
  }

  ghost predicate Listing(q: seq<Message>, m: Index) {
    Increasing(q) && forall x :: x in q <==> x.number in m && m[x.number] == x
  }

  lemma {:induction false} ListOfLists(m: Index)
    requires Filed(m)
    ensures Listing(ListOf(m), m)
    decreases |m|
  {
    if m != map[] {
      var k := Greatest(m.Keys);
      ListOfLists(m - {k});
      ListingAppend(ListOf(m - {k}), m, k);
    }
  }

  lemma ListingAppend(q: seq<Message>, m: Index, k: int)
    requires Filed(m) && k in m && (forall j | j in m :: j <= k) && Listing(q, m - {k})
    ensures Listing(q + [m[k]], m)
  {
    forall x ensures x in q + [m[k]] <==> x.number in m && m[x.number] == x {
      assert x in q + [m[k]] <==> x in q || x == m[k];
    }
    forall i | 0 <= i < |q| ensures q[i].number < k {
      assert q[i] in q;
    }
  }

  /** A map has only one ascending listing. */
  lemma {:induction false} ListingUnique(p: seq<Message>, q: seq<Message>, m: Index)
    requires Listing(p, m) && Listing(q, m)
    ensures p == q
    decreases |p|
  {
    assert q != [] ==> q[0] in q && q[0] in p;
    if p != [] {
      var a := p[|p| - 1];
      assert a in p && a in q;
      var b := q[|q| - 1];
      assert b in q && b in p;
      assert a == b;
      var m' := m - {a.number};
      ListingInit(p, m);
      ListingInit(q, m);
      ListingUnique(p[..|p| - 1], q[..|q| - 1], m');
      assert p == p[..|p| - 1] + [a] && q == q[..|q| - 1] + [a];
    }
  }

  lemma ListingInit(p: seq<Message>, m: Index)
    requires Listing(p, m) && p != []
    ensures Listing(p[..|p| - 1], m - {p[|p| - 1].number})
  {
    var a, init := p[|p| - 1], p[..|p| - 1];
    InitLast(p);
    forall x ensures x in init <==> x.number in m - {a.number} && (m - {a.number})[x.number] == x {
      if x in init {
        var i :| 0 <= i < |init| && init[i] == x;
        assert p[i] == x && x.number < a.number;
      }
    }
  }

  lemma {:induction false} IncreasingLists(q: seq<Message>)
    requires Increasing(q)
    ensures Listing(q, AsMap(q)) && Filed(AsMap(q))
  {
    if q != [] {
      IncreasingLists(q[..|q| - 1]);
      ListingExtends(q[..|q| - 1], q[|q| - 1], AsMap(q[..|q| - 1]));
      assert q == q[..|q| - 1] + [q[|q| - 1]];
    }
  }

  lemma ListingExtends(q: seq<Message>, x: Message, m: Index)
    requires Increasing(q + [x]) && Listing(q, m) && Filed(m)
    ensures Listing(q + [x], m[x.number := x]) && Filed(m[x.number := x])
  {
    forall y | y in q ensures y.number != x.number {
      var i :| 0 <= i < |q| && q[i] == y;
      assert (q + [x])[i] == y && (q + [x])[|q|] == x;
    }
  }

  lemma {:induction false} AsMapFiled(q: seq<Message>)
    ensures Filed(AsMap(q))
  {
    if q != [] {
      AsMapFiled(q[..|q| - 1]);
    }
  }

  lemma {:induction false} AcceptFiled(m: Index, xs: seq<Message>, authoritative: bool)
    requires Filed(m)
    ensures Filed(AcceptAll(m, xs, authoritative))
  {
    if xs != [] {
      AcceptFiled(m, xs[..|xs| - 1], authoritative);
    }
  }

  lemma {:induction false} NoChange(m: Index, xs: seq<Message>, authoritative: bool)
    requires !Changes(m, xs, authoritative)
    ensures AcceptAll(m, xs, authoritative) == m
  {
    if xs != [] {
      NoChange(m, xs[..|xs| - 1], authoritative);
    }
  }

  // What the map-and-sort path returns.
  ghost function MapAndSort(existing: seq<Message>, incoming: seq<Message>, authoritative: bool): seq<Message> {
    if Changes(AsMap(existing), incoming, authoritative) then ListOf(AcceptAll(AsMap(existing), incoming, authoritative))
    else existing
  }

  predicate AppendsOne(existing: seq<Message>, incoming: seq<Message>) {
    existing != [] && |incoming| == 1 && incoming[0].number > existing[|existing| - 1].number
  }

  predicate ExtendsByOne(existing: seq<Message>, incoming: seq<Message>) {
    existing != [] && |incoming| == |existing| + 1 && incoming[..|existing|] == existing
    && incoming[|existing|].number > existing[|existing| - 1].number
  }

  // The reference tests hold only of equal values: the batch is the cached array itself, or starts with its entries.
  predicate Attested(existing: seq<Message>, incoming: seq<Message>, same: bool, shared: bool) {
    && (same ==> incoming == existing)
    && (shared ==> |existing| <= |incoming| && incoming[..|existing|] == existing)
  }

  // The merge with its fast paths.
  ghost function Merged(existing: seq<Message>, incoming: seq<Message>, authoritative: bool, same: bool, shared: bool): seq<Message> {
    if same || incoming == [] then existing
    else if AppendsOne(existing, incoming) then existing + incoming
    else if shared && ExtendsByOne(existing, incoming) then incoming
    else MapAndSort(existing, incoming, authoritative)
  }

  // ---- The merge ----

  method SortedValues(bySeq: Index) returns (r: seq<Message>)
    requires Filed(bySeq)
    ensures r == ListOf(bySeq)
  {
    // The map's values in whatever order it iterates.
    var values: seq<Message>, keys := [], bySeq.Keys;
    while keys != {}
      invariant keys <= bySeq.Keys
      invariant forall x: Message :: x in values <==> x.number in bySeq && x.number !in keys && bySeq[x.number] == x
      invariant DistinctBy(Number, values)
      decreases keys
    {
      ghost var some := Pick(keys);
      var k :| k in keys;
      AppendDistinct(values, bySeq[k]);
      values := values + [bySeq[k]];
      keys := keys - {k};
    }
    r := Sort(BySeq, values);
    SortOrdered(BySeq, values);
    SortDistinct(BySeq, Number, values);
    OrderedIncreases(r);
    forall x ensures x in r <==> x.number in bySeq && bySeq[x.number] == x {
      SortHas(BySeq, values, x);
    }
    ListOfLists(bySeq);
    ListingUnique(r, ListOf(bySeq), bySeq);
  }

  function Number(x: Message): int {
    x.number
  }

  function BySeq(a: Message, b: Message): int {
    a.number - b.number
  }

  lemma {:induction false} AppendDistinct(q: seq<Message>, x: Message)
    requires DistinctBy(Number, q) && Fresh(Number, x.number, q)
    ensures DistinctBy(Number, q + [x])
  {
    if q != [] {
      HeadTail(q);
      AppendDistinct(q[1..], x);
      assert (q + [x])[1..] == q[1..] + [x];
    }
  }

  lemma {:induction false} OrderedIncreases(q: seq<Message>)
    requires Ordered(BySeq, q) && DistinctBy(Number, q)
    ensures Increasing(q)
  {
    if q != [] {
      OrderedIncreases(q[1..]);
      forall i, j | 0 <= i < j < |q| ensures q[i].number < q[j].number {
        if i == 0 {
          assert q[j] == q[1..][j - 1] && q[j] in q[1..];
          assert BySeq(q[0], q[j]) <= 0 && Number(q[j]) != Number(q[0]);
        } else {
          assert q[i] == q[1..][i - 1] && q[j] == q[1..][j - 1];
        }
      }
    }
  }

  method IndexBySeq(existing: seq<Message>) returns (bySeq: Index)
    ensures bySeq == AsMap(existing)
  {
    bySeq := map[];
    for i := 0 to |existing|
      invariant bySeq == AsMap(existing[..i])
    {
      assert existing[..i + 1][..i] == existing[..i];
      bySeq := bySeq[existing[i].number := existing[i]];
    }
    assert existing[..|existing|] == existing;
  }

  method Apply(start: Index, incoming: seq<Message>, authoritative: bool) returns (bySeq: Index, changed: bool)
    ensures bySeq == AcceptAll(start, incoming, authoritative)
    ensures changed == Changes(start, incoming, authoritative)
  {
    bySeq, changed := start, false;
    for i := 0 to |incoming|
      invariant bySeq == AcceptAll(start, incoming[..i], authoritative)
      invariant changed == Changes(start, incoming[..i], authoritative)
    {
      assert incoming[..i + 1][..i] == incoming[..i];
      var message := incoming[i];
      if message.number !in bySeq || (authoritative && bySeq[message.number] != message) {
        bySeq := bySeq[message.number := message];
        changed := true;
      }
    }
    assert incoming[..|incoming|] == incoming;
  }

  /** `same` and `shared` are the outcomes of the reference tests. */
  method Merge(existing: seq<Message>, incoming: seq<Message>, authoritative: bool, same: bool, shared: bool)
    returns (r: seq<Message>)
    requires Attested(existing, incoming, same, shared)
    ensures r == Merged(existing, incoming, authoritative, same, shared)
    ensures Increasing(existing) ==> r == MapAndSort(existing, incoming, authoritative)
  {
    if Increasing(existing) {
      FastPathsAgree(existing, incoming, authoritative, same, shared);
    }
    if same || |incoming| == 0 {
      return existing;
    }
    if |incoming| == 1 && |existing| > 0 && incoming[0].number > existing[|existing| - 1].number {
      return existing + [incoming[0]];
    }
    if |existing| > 0 && |incoming| == |existing| + 1 && incoming[|incoming| - 1].number > existing[|existing| - 1].number && shared {
      return incoming;
    }
    var bySeq := IndexBySeq(existing);
    var changed;
    bySeq, changed := Apply(bySeq, incoming, authoritative);
    if !changed {
      return existing;
    }
    AsMapFiled(existing);
    AcceptFiled(AsMap(existing), incoming, authoritative);
    r := SortedValues(bySeq);
  }

  // ---- Fast paths ----

  lemma {:induction false} ReMergeIsIdle(q: seq<Message>, part: seq<Message>, authoritative: bool)
    requires Increasing(q) && part <= q
    ensures !Changes(AsMap(q), part, authoritative) && AcceptAll(AsMap(q), part, authoritative) == AsMap(q)
  {
    if part != [] {
      var n := |part| - 1;
      ReMergeIsIdle(q, part[..n], authoritative);
      IncreasingLists(q);
      assert part[n] == q[n] && part[n] in q;
    }
  }

  lemma ListsItself(q: seq<Message>, m: Index)
    requires Listing(q, m) && Filed(m)
    ensures q == ListOf(m)
  {
    ListOfLists(m);
    ListingUnique(q, ListOf(m), m);
  }

  lemma AppendIncreasing(q: seq<Message>, x: Message)
    requires q != [] && x.number > q[|q| - 1].number
    ensures Increasing(q + [x]) <==> Increasing(q)
  {
    var all := q + [x];
    if Increasing(all) {
      forall i, j | 0 <= i < j < |q| ensures q[i].number < q[j].number {
        assert all[i] == q[i] && all[j] == q[j];
      }
    }
  }

  lemma ListOfIncreases(m: Index)
    requires Filed(m)
    ensures Increasing(ListOf(m))
  {
    ListOfLists(m);
  }

  lemma AppendAgrees(existing: seq<Message>, incoming: seq<Message>, authoritative: bool)
    requires Increasing(existing) && AppendsOne(existing, incoming)
    ensures existing + incoming == MapAndSort(existing, incoming, authoritative)
  {
    var x, m := incoming[0], AsMap(existing);
    var all := existing + [x];
    assert incoming == [x] && incoming[..0] == [] && all[..|existing|] == existing;
    IncreasingLists(existing);
    AppendIncreasing(existing, x);
    NotFiledYet(existing, x);
    assert AcceptAll(m, incoming, authoritative) == m[x.number := x];
    assert AsMap(all) == m[x.number := x];
    assert x.number !in m && Changes(m, incoming, authoritative);
    IncreasingLists(all);
    ListsItself(all, AsMap(all));
  }

  lemma NotFiledYet(q: seq<Message>, x: Message)
    requires Increasing(q) && q != [] && x.number > q[|q| - 1].number
    ensures x.number !in AsMap(q)
  {
    IncreasingLists(q);
    assert x.number in AsMap(q) ==> AsMap(q)[x.number] in q;
    forall y | y in q ensures y.number < x.number {
      var i :| 0 <= i < |q| && q[i] == y;
      assert i == |q| - 1 || q[i].number < q[|q| - 1].number;
    }
  }

  lemma ExtendAgrees(existing: seq<Message>, incoming: seq<Message>, authoritative: bool)
    requires Increasing(existing) && ExtendsByOne(existing, incoming)
    ensures incoming == MapAndSort(existing, incoming, authoritative)
  {
    var n := |existing|;
    var x, m := incoming[n], AsMap(existing);
    assert incoming == existing + [x] && incoming[..n] == existing;
    ReMergeIsIdle(existing, existing, authoritative);
    IncreasingLists(existing);
    AppendIncreasing(existing, x);
    NotFiledYet(existing, x);
    assert AcceptAll(m, incoming, authoritative) == m[x.number := x];
    assert AsMap(incoming) == m[x.number := x];
    assert Changes(m, incoming, authoritative);
    IncreasingLists(incoming);
    ListsItself(incoming, AsMap(incoming));
  }

  /** On a list in order every path of the merge gives what mapping and sorting gives. */
  lemma FastPathsAgree(existing: seq<Message>, incoming: seq<Message>, authoritative: bool, same: bool, shared: bool)
    requires Increasing(existing) && Attested(existing, incoming, same, shared)
    ensures Merged(existing, incoming, authoritative, same, shared) == MapAndSort(existing, incoming, authoritative)
  {
    if same {
      ReMergeIsIdle(existing, existing, authoritative);
    } else if AppendsOne(existing, incoming) {
      AppendAgrees(existing, incoming, authoritative);
    } else if ExtendsByOne(existing, incoming) {
      ExtendAgrees(existing, incoming, authoritative);
    }
  }

  /**
   Appending directly is the same as sorting exactly when the cached list is in
   order: on any other list the first fast path would differ.
   */
  lemma AppendAgreesExactly(existing: seq<Message>, incoming: seq<Message>, authoritative: bool)
    requires AppendsOne(existing, incoming)
    ensures existing + incoming == MapAndSort(existing, incoming, authoritative) <==> Increasing(existing)
  {
    if Increasing(existing) {
      AppendAgrees(existing, incoming, authoritative);
    } else {
      AsMapFiled(existing);
      AcceptFiled(AsMap(existing), incoming, authoritative);
      ListOfIncreases(AcceptAll(AsMap(existing), incoming, authoritative));
      AppendIncreasing(existing, incoming[0]);
      assert incoming == [incoming[0]];
    }
  }

  // ---- Whole runs ----

  /** On a list in order the merge is the map union the batch calls for, listed in order. */
  lemma MergeIsUnion(existing: seq<Message>, incoming: seq<Message>, authoritative: bool)
    requires Increasing(existing)
    ensures var r := MapAndSort(existing, incoming, authoritative);
            && Increasing(r) && AsMap(r) == AcceptAll(AsMap(existing), incoming, authoritative)
            && r == ListOf(AcceptAll(AsMap(existing), incoming, authoritative))
  {
    IncreasingLists(existing);
    var m := AcceptAll(AsMap(existing), incoming, authoritative);
    AcceptFiled(AsMap(existing), incoming, authoritative);
    if Changes(AsMap(existing), incoming, authoritative) {
      ListOfLists(m);
      SameMap(ListOf(m), m);
    } else {
      NoChange(AsMap(existing), incoming, authoritative);
      ListsItself(existing, m);
    }
  }

  lemma SameMap(q: seq<Message>, m: Index)
    requires Listing(q, m) && Filed(m)
    ensures AsMap(q) == m
  {
    IncreasingLists(q);
    forall k ensures k in AsMap(q) <==> k in m {
      if k in m {
        assert m[k] in q;
      }
      if k in AsMap(q) {
        assert AsMap(q)[k] in q;
      }
    }
    forall k | k in m ensures AsMap(q)[k] == m[k] {
      assert m[k] in q;
    }
  }

  // A delivery, with the outcomes of the reference tests at its turn.
  datatype Batch = Batch(messages: seq<Message>, authoritative: bool, same: bool, shared: bool)

  // A run of merges from the empty list, through whichever path each takes.

  ghost function Run(batches: seq<Batch>): seq<Message> {
    if batches == [] then []
    else
      var b := batches[|batches| - 1];
      Merged(Run(batches[..|batches| - 1]), b.messages, b.authoritative, b.same, b.shared)
  }

  ghost predicate AllAttested(batches: seq<Batch>) {
    batches == [] ||
    var init, b := batches[..|batches| - 1], batches[|batches| - 1];
    AllAttested(init) && Attested(Run(init), b.messages, b.same, b.shared)
  }

  function Numbers(xs: seq<Message>): set<int> {
    set x | x in xs :: x.number
  }

  // The numbers delivered by a run.
  function Delivered(batches: seq<Batch>): set<int> {
    if batches == [] then {}
    else Delivered(batches[..|batches| - 1]) + Numbers(batches[|batches| - 1].messages)
  }

  // Every delivered message is the log's message of that number.
  ghost predicate FromLog(xs: seq<Message>, log: Index) {
    forall x | x in xs :: x.number in log && log[x.number] == x
  }

  // The list is in order and shows exactly the map's messages.
  ghost predicate Holds(q: seq<Message>, m: Index) {
    Increasing(q) && q == ListOf(m) && AsMap(q) == m
  }

  ghost function Part(log: Index, numbers: set<int>): Index {
    map k | k in log && k in numbers :: log[k]
  }

  lemma {:induction false} AcceptFromLog(log: Index, have: set<int>, xs: seq<Message>, authoritative: bool)
    requires FromLog(xs, log)
    ensures AcceptAll(Part(log, have), xs, authoritative) == Part(log, have + Numbers(xs))
  {
    if xs == [] {
      assert have + Numbers(xs) == have;
    } else {
      InitLast(xs);
      var init, last := xs[..|xs| - 1], xs[|xs| - 1];
      AcceptFromLog(log, have, init, authoritative);
      assert Numbers(xs) == Numbers(init) + {last.number};
    }
  }

  /**
   Any interleaving, repetition and batching of deliveries from one log, plain or
   authoritative, through the fast paths or past them, leaves exactly the delivered messages, once each and in order.
   */
  lemma {:induction false} RunIsDelivered(batches: seq<Batch>, log: Index)
    requires Filed(log) && AllAttested(batches) && forall b | b in batches :: FromLog(b.messages, log)
    ensures Holds(Run(batches), Part(log, Delivered(batches)))
  {
    if batches == [] {
      assert Part(log, {}) == map[];
    } else {
      InitLast(batches);
      var init, b := batches[..|batches| - 1], batches[|batches| - 1];
      RunIsDelivered(init, log);
      BatchIsDelivered(Run(init), log, Delivered(init), b);
    }
  }

  lemma BatchIsDelivered(q: seq<Message>, log: Index, have: set<int>, b: Batch)
    requires Holds(q, Part(log, have)) && FromLog(b.messages, log) && Attested(q, b.messages, b.same, b.shared)
    ensures Holds(Merged(q, b.messages, b.authoritative, b.same, b.shared), Part(log, have + Numbers(b.messages)))
  {
    FastPathsAgree(q, b.messages, b.authoritative, b.same, b.shared);
    MergeIsUnion(q, b.messages, b.authoritative);
    AcceptFromLog(log, have, b.messages, b.authoritative);
  }

  /** So the cached list depends only on what was delivered, not on how. */
  lemma RunsConverge(a: seq<Batch>, b: seq<Batch>, log: Index)
    requires Filed(log) && AllAttested(a) && AllAttested(b)
    requires (forall x | x in a :: FromLog(x.messages, log)) && (forall x | x in b :: FromLog(x.messages, log))
    requires Delivered(a) == Delivered(b)
    ensures Run(a) == Run(b)
  {
    RunIsDelivered(a, log);
    RunIsDelivered(b, log);
  }

  // ---- Plain merges as an algebra ----

  lemma {:induction false} PlainIsUnion(m: Index, xs: seq<Message>)
    requires Increasing(xs)
    ensures AcceptAll(m, xs, false) == AsMap(xs) + m
  {
    if xs != [] {
      PlainIsUnion(m, xs[..|xs| - 1]);
      if |xs| > 1 {
        NotFiledYet(xs[..|xs| - 1], xs[|xs| - 1]);
      }
    }
  }

  lemma PlainMergeMap(a: seq<Message>, b: seq<Message>)
    requires Increasing(a) && Increasing(b)
    ensures var r := MapAndSort(a, b, false);
            Increasing(r) && AsMap(r) == AsMap(b) + AsMap(a) && r == ListOf(AsMap(b) + AsMap(a))
  {
    MergeIsUnion(a, b, false);
    PlainIsUnion(AsMap(a), b);
  }

  lemma UnionLaws(x: Index, y: Index, z: Index)
    ensures x + (y + z) == (x + y) + z && x + x == x && y + (y + z) == y + z
  {
  }

  /** Plain merges of lists in order are associative and idempotent, the earlier list winning conflicts. */
  lemma PlainMergesCompose(a: seq<Message>, b: seq<Message>, c: seq<Message>)
    requires Increasing(a) && Increasing(b) && Increasing(c)
    ensures MapAndSort(MapAndSort(a, b, false), c, false) == MapAndSort(a, MapAndSort(b, c, false), false)
    ensures MapAndSort(a, a, false) == a
    ensures MapAndSort(MapAndSort(a, b, false), b, false) == MapAndSort(a, b, false)
  {
    PlainMergeMap(a, b);
    PlainMergeMap(b, c);
    PlainMergeMap(MapAndSort(a, b, false), c);
    PlainMergeMap(a, MapAndSort(b, c, false));
    PlainMergeMap(MapAndSort(a, b, false), b);
    UnionLaws(AsMap(c), AsMap(b), AsMap(a));
    ReMergeIsIdle(a, a, false);
  }

  /** After an authoritative batch with distinct numbers the list holds the batch's own messages; others stay. */
  lemma AuthoritativeCorrects(existing: seq<Message>, incoming: seq<Message>, x: Message)
    requires Increasing(existing) && Increasing(incoming)
    ensures var r := MapAndSort(existing, incoming, true);
            x in r <==> x in incoming || (x in existing && x.number !in AsMap(incoming))
  {
    MergeIsUnion(existing, incoming, true);
    AuthoritativeIsOverride(AsMap(existing), incoming);
    IncreasingLists(existing);
    IncreasingLists(incoming);
    IncreasingLists(MapAndSort(existing, incoming, true));
  }

  lemma {:induction false} AuthoritativeIsOverride(m: Index, xs: seq<Message>)
    ensures AcceptAll(m, xs, true) == m + AsMap(xs)
  {
    if xs != [] {
      AuthoritativeIsOverride(m, xs[..|xs| - 1]);
    }
  }
}
