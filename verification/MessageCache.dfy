/** The two caches of one chat's messages: a flat list and cursor pages, newest page first. */
module MessageCache {
  import opened Wrappers

  // A message by its id and the fields that are set.
  datatype Message = Message(id: string, fields: map<string, string>)

  // ---- Merging one message into its row ----

  // Fills the fields the row lacks; set fields stay.
  function Filled(existing: Message, incoming: Message): Message {
    existing.(fields := incoming.fields + existing.fields)
  }

  method MergeChatMessage(existing: Message, incoming: Message) returns (r: Message)
    ensures r == Filled(existing, incoming)
  {
    var fills: map<string, string> := map[];
    var filled := false;
    var keys := incoming.fields.Keys;
    while keys != {}
      invariant keys <= incoming.fields.Keys
      invariant forall k :: k in fills <==> k in incoming.fields && k !in keys && k !in existing.fields
      invariant forall k | k in fills :: fills[k] == incoming.fields[k]
      invariant !filled ==> fills == map[]
      decreases keys
    {
      var key :| key in keys;
      keys := keys - {key};
      if key !in existing.fields {
        fills := fills[key := incoming.fields[key]];
        filled := true;
      }
    }
    r := if filled then existing.(fields := existing.fields + fills) else existing;
    assert r.fields == incoming.fields + existing.fields;
  }

  function IndexOf(messages: seq<Message>, id: string): (r: Option<nat>)
    ensures r.Some? ==> r.value < |messages| && messages[r.value].id == id
  {
    if messages == [] then None
    else if messages[0].id == id then Some(0)
    else
      var rest := IndexOf(messages[1..], id);
      if rest.Some? then Some(rest.value + 1) else None
  }

  function MergeIntoList(messages: seq<Message>, m: Message): seq<Message> {
    var index := IndexOf(messages, m.id);
    if index.None? then messages else messages[index.value := Filled(messages[index.value], m)]
  }

  predicate Has(messages: seq<Message>, id: string) {
    exists m | m in messages :: m.id == id
  }

  lemma {:induction false} IndexFound(messages: seq<Message>, id: string)
    ensures IndexOf(messages, id).Some? <==> Has(messages, id)
  {
    if messages != [] {
      assert messages == [messages[0]] + messages[1..];
      IndexFound(messages[1..], id);
    }
  }

  function UpsertIntoList(messages: seq<Message>, m: Message): seq<Message> {
    if Has(messages, m.id) then MergeIntoList(messages, m) else messages + [m]
  }

  // ---- Pages ----

  datatype Page = Page(messages: seq<Message>, limit: int, hasMore: bool, cursor: Option<string>)

  predicate Seen(pages: seq<Page>, id: string) {
    exists p | p in pages :: Has(p.messages, id)
  }

  function MergeIntoPages(pages: seq<Page>, m: Message): (r: seq<Page>)
    ensures |r| == |pages|
  {
    if pages == [] then [] else [pages[0].(messages := MergeIntoList(pages[0].messages, m))] + MergeIntoPages(pages[1..], m)
  }

  function UpsertedPages(pages: seq<Page>, m: Message): seq<Page> {
    if Seen(pages, m.id) then MergeIntoPages(pages, m)
    else if pages == [] then []
    else [pages[0].(messages := pages[0].messages + [m])] + pages[1..]
  }

  lemma {:induction false} MergedPageAt(pages: seq<Page>, m: Message, i: nat)
    requires i < |pages|
    ensures MergeIntoPages(pages, m)[i] == pages[i].(messages := MergeIntoList(pages[i].messages, m))
  {
    if i > 0 {
      MergedPageAt(pages[1..], m, i - 1);
    }
  }

  method MergeInPlace(pages: seq<Page>, m: Message) returns (r: seq<Page>)
    ensures r == MergeIntoPages(pages, m)
  {
    r := [];
    var changed := false;
    ghost var merged := MergeIntoPages(pages, m);
    for i := 0 to |pages|
      invariant r == merged[..i] && (!changed ==> r == pages[..i])
    {
      MergedPageAt(pages, m, i);
      var page := pages[i];
      var next := MergeIntoList(page.messages, m);
      if next == page.messages {
        r := r + [page];
      } else {
        changed := true;
        r := r + [page.(messages := next)];
      }
    }
    if !changed {
      r := pages;
    }
  }

  method UpsertIntoPages(pages: seq<Page>, m: Message) returns (r: seq<Page>)
    ensures r == UpsertedPages(pages, m)
  {
    if Seen(pages, m.id) {
      r := MergeInPlace(pages, m);
    } else {
      r := [];
      for i := 0 to |pages|
        invariant r == UpsertedPages(pages, m)[..i]
      {
        r := r + [if i == 0 then pages[0].(messages := pages[0].messages + [m]) else pages[i]];
      }
    }
  }

  // The pages read oldest first.
  function Flat(pages: seq<Page>): seq<Message> {
    if pages == [] then [] else Flat(pages[1..]) + pages[0].messages
  }

  // ---- Refinement ----

  lemma HasConcat(a: seq<Message>, b: seq<Message>, id: string)
    ensures Has(a + b, id) <==> Has(a, id) || Has(b, id)
  {
    assert forall m :: m in a + b <==> m in a || m in b;
  }

  lemma {:induction false} FlatHas(pages: seq<Page>, id: string)
    ensures Has(Flat(pages), id) <==> Seen(pages, id)
  {
    if pages != [] {
      assert pages == [pages[0]] + pages[1..];
      FlatHas(pages[1..], id);
      HasConcat(Flat(pages[1..]), pages[0].messages, id);
    }
  }

  lemma MergeConcat(a: seq<Message>, b: seq<Message>, m: Message)
    ensures MergeIntoList(a + b, m) == if Has(a, m.id) then MergeIntoList(a, m) + b else a + MergeIntoList(b, m)
  {
    IndexConcat(a, b, m.id);
    IndexFound(a, m.id);
    var i, j := IndexOf(a, m.id), IndexOf(b, m.id);
    if i.Some? {
      UpdateInConcat(a, b, i.value, Filled(a[i.value], m));
    } else if j.Some? {
      UpdateInConcat(a, b, |a| + j.value, Filled(b[j.value], m));
    }
  }

  lemma UpdateInConcat<T>(a: seq<T>, b: seq<T>, i: nat, x: T)
    requires i < |a| + |b|
    ensures (a + b)[i] == if i < |a| then a[i] else b[i - |a|]
    ensures (a + b)[i := x] == if i < |a| then a[i := x] + b else a + b[i - |a| := x]
  {
  }

  lemma {:induction false} IndexConcat(a: seq<Message>, b: seq<Message>, id: string)
    ensures var i, j := IndexOf(a, id), IndexOf(b, id);
            IndexOf(a + b, id) == if i.Some? then i else if j.Some? then Some(|a| + j.value) else None
  {
    if a == [] {
      assert a + b == b;
    } else {
      TailOfConcat(a, b);
      IndexConcat(a[1..], b, id);
    }
  }

  lemma TailOfConcat<T>(a: seq<T>, b: seq<T>)
    requires a != []
    ensures (a + b)[0] == a[0] && (a + b)[1..] == a[1..] + b
  {
  }

  // Below the oldest page with the row, no page would be changed by merging it.
  ghost predicate OnlyOldestChanges(pages: seq<Page>, m: Message) {
    pages == [] ||
    (OnlyOldestChanges(pages[1..], m)
     && (Seen(pages[1..], m.id) ==> MergeIntoList(pages[0].messages, m) == pages[0].messages))
  }

  /** Merging page by page and merging the flat list agree exactly when only the oldest copy has anything to fill. */
  lemma {:induction false} PageMergeExactly(pages: seq<Page>, m: Message)
    ensures Flat(MergeIntoPages(pages, m)) == MergeIntoList(Flat(pages), m) <==> OnlyOldestChanges(pages, m)
  {
    if pages != [] {
      var rest, page := pages[1..], pages[0].messages;
      PageMergeExactly(rest, m);
      FlatHas(rest, m.id);
      MergeConcat(Flat(rest), page, m);
      SameLengths(rest, m);
      var merged := MergeIntoPages(pages, m);
      assert merged[1..] == MergeIntoPages(rest, m) && merged[0].messages == MergeIntoList(page, m);
      var x, y := Flat(merged[1..]), MergeIntoList(page, m);
      if Seen(rest, m.id) {
        Split(x, y, MergeIntoList(Flat(rest), m), page);
      } else {
        Unseen(rest, m);
        Split(x, y, Flat(rest), y);
      }
    }
  }

  /** With one row on two pages they disagree: filling a field changes both pages, but the flat list only once. */
  lemma RepeatedRowFillsTwice(row: Message, m: Message, k: string)
    requires m.id == row.id && k in m.fields && k !in row.fields
    ensures var page := Page([row], 50, false, None);
            Flat(MergeIntoPages([page, page], m)) != MergeIntoList(Flat([page, page]), m)
  {
    var page := Page([row], 50, false, None);
    var pages, rest := [page, page], [page];
    assert pages[1..] == rest;
    PageMergeExactly(pages, m);
    assert page in rest && row in page.messages;
    assert IndexOf(page.messages, m.id) == Some(0);
    assert k in MergeIntoList(page.messages, m)[0].fields;
  }

  lemma Split(a: seq<Message>, b: seq<Message>, c: seq<Message>, d: seq<Message>)
    requires |a| == |c|
    ensures a + b == c + d <==> a == c && b == d
  {
    if a + b == c + d {
      assert (a + b)[..|a|] == a && (c + d)[..|a|] == c;
      assert (a + b)[|a|..] == b && (c + d)[|a|..] == d;
    }
  }

  lemma {:induction false} SameLengths(pages: seq<Page>, m: Message)
    ensures |Flat(MergeIntoPages(pages, m))| == |Flat(pages)|
  {
    if pages != [] {
      SameLengths(pages[1..], m);
    }
  }

  lemma {:induction false} Unseen(pages: seq<Page>, m: Message)
    requires !Seen(pages, m.id)
    ensures MergeIntoPages(pages, m) == pages && OnlyOldestChanges(pages, m)
  {
    if pages != [] {
      assert pages == [pages[0]] + pages[1..];
      assert pages[0] in pages;
      IndexFound(pages[0].messages, m.id);
      Unseen(pages[1..], m);
    }
  }

  // No id twice.
  ghost predicate UniqueIds(messages: seq<Message>) {
    forall i, j :: 0 <= i < j < |messages| ==> messages[i].id != messages[j].id
  }

  lemma {:induction false} UniqueChangesOnce(pages: seq<Page>, m: Message)
    requires UniqueIds(Flat(pages))
    ensures OnlyOldestChanges(pages, m)
  {
    if pages != [] {
      var rest, page := Flat(pages[1..]), pages[0].messages;
      assert forall i, j :: 0 <= i < j < |rest| ==> Flat(pages)[i] == rest[i] && Flat(pages)[j] == rest[j];
      UniqueChangesOnce(pages[1..], m);
      FlatHas(pages[1..], m.id);
      NoShared(rest, page, m.id);
      IndexFound(page, m.id);
    }
  }

  lemma NoShared(a: seq<Message>, b: seq<Message>, id: string)
    requires UniqueIds(a + b)
    ensures !(Has(a, id) && Has(b, id))
  {
    forall i, j | 0 <= i < |a| && 0 <= j < |b| ensures a[i].id != b[j].id {
      assert (a + b)[i] == a[i] && (a + b)[|a| + j] == b[j];
    }
  }

  /** With unique ids, upserting into the pages and reading them oldest first is upserting into the flat list. */
  lemma UpsertRefines(pages: seq<Page>, m: Message)
    requires pages != [] && UniqueIds(Flat(pages))
    ensures Flat(UpsertedPages(pages, m)) == UpsertIntoList(Flat(pages), m)
  {
    FlatHas(pages, m.id);
    if Seen(pages, m.id) {
      UniqueChangesOnce(pages, m);
      PageMergeExactly(pages, m);
    } else {
      var r := UpsertedPages(pages, m);
      assert r[1..] == pages[1..] && r[0].messages == pages[0].messages + [m];
      assert Flat(pages[1..]) + (pages[0].messages + [m]) == (Flat(pages[1..]) + pages[0].messages) + [m];
    }
  }

  // ---- Lists over time ----

  // The rows of a list reappear in place, with at least their set fields.
  ghost predicate Grows(before: seq<Message>, after: seq<Message>) {
    && |before| <= |after|
    && forall i :: 0 <= i < |before| ==> Richer(before[i], after[i])
  }

  ghost predicate Richer(a: Message, b: Message) {
    a.id == b.id && forall k | k in a.fields :: k in b.fields && b.fields[k] == a.fields[k]
  }

  /** An upsert keeps ids unique, order and set fields, and makes the message's own fields known. */
  lemma UpsertGrows(messages: seq<Message>, m: Message)
    ensures Grows(messages, UpsertIntoList(messages, m))
    ensures UniqueIds(messages) ==> UniqueIds(UpsertIntoList(messages, m))
    ensures exists r | r in UpsertIntoList(messages, m) :: r.id == m.id && m.fields.Keys <= r.fields.Keys
  {
    var index, after := IndexOf(messages, m.id), UpsertIntoList(messages, m);
    IndexFound(messages, m.id);
    if index.Some? {
      assert after[index.value] in after;
    } else {
      assert after[|messages|] in after;
      if UniqueIds(messages) {
        forall i | 0 <= i < |messages| ensures messages[i].id != m.id {
          assert messages[i] in messages;
        }
      }
    }
  }

  lemma {:induction false} IndexStays(a: seq<Message>, b: seq<Message>, id: string)
    requires |a| == |b| && forall i :: 0 <= i < |a| ==> a[i].id == b[i].id
    ensures IndexOf(a, id) == IndexOf(b, id)
  {
    if a != [] {
      IndexStays(a[1..], b[1..], id);
    }
  }

  lemma UpsertTwoFound(messages: seq<Message>, a: Message, b: Message, i: nat)
    requires a.id == b.id && IndexOf(messages, a.id) == Some(i)
    ensures UpsertIntoList(UpsertIntoList(messages, a), b) == messages[i := Filled(Filled(messages[i], a), b)]
  {
    IndexFound(messages, a.id);
    var once := messages[i := Filled(messages[i], a)];
    assert UpsertIntoList(messages, a) == once;
    IndexStays(messages, once, a.id);
    IndexFound(once, a.id);
  }

  lemma UpsertTwoNew(messages: seq<Message>, a: Message, b: Message)
    requires a.id == b.id && IndexOf(messages, a.id) == None
    ensures UpsertIntoList(UpsertIntoList(messages, a), b) == messages + [Filled(a, b)]
  {
    IndexFound(messages, a.id);
    var once := messages + [a];
    assert UpsertIntoList(messages, a) == once;
    IndexConcat(messages, [a], a.id);
    IndexFound(once, a.id);
  }

  // Upserting two messages with one id, as one row update.
  lemma UpsertTwo(messages: seq<Message>, a: Message, b: Message)
    requires a.id == b.id
    ensures UpsertIntoList(UpsertIntoList(messages, a), b)
         == match IndexOf(messages, a.id)
            case None => messages + [Filled(a, b)]
            case Some(i) => messages[i := Filled(Filled(messages[i], a), b)]
  {
    match IndexOf(messages, a.id)
    case None => UpsertTwoNew(messages, a, b);
    case Some(i) => UpsertTwoFound(messages, a, b, i);
  }

  /** Upserting the same message twice equals once. */
  lemma UpsertIdempotent(messages: seq<Message>, m: Message)
    ensures UpsertIntoList(UpsertIntoList(messages, m), m) == UpsertIntoList(messages, m)
  {
    UpsertTwo(messages, m, m);
    IndexFound(messages, m.id);
    assert Filled(m, m) == m;
    var index := IndexOf(messages, m.id);
    if index.Some? {
      assert Filled(Filled(messages[index.value], m), m) == Filled(messages[index.value], m);
    }
  }

  // No field that is still open gets two different values.
  predicate Compatible(open: Message, a: Message, b: Message) {
    forall k | k in a.fields && k in b.fields && k !in open.fields :: a.fields[k] == b.fields[k]
  }

  lemma FillsCommute(e: Message, a: Message, b: Message)
    ensures Filled(Filled(e, a), b) == Filled(Filled(e, b), a) <==> Compatible(e, a, b)
  {
    var x, y := Filled(Filled(e, a), b).fields, Filled(Filled(e, b), a).fields;
    if x == y {
      forall k | k in a.fields && k in b.fields && k !in e.fields ensures a.fields[k] == b.fields[k] {
        assert x[k] == y[k];
      }
    }
    if Compatible(e, a, b) {
      assert x == y;
    }
  }

  // The row of a message before it arrives: the cached one, or one without fields.
  function RowOf(messages: seq<Message>, id: string): Message {
    match IndexOf(messages, id)
    case None => Message(id, map[])
    case Some(i) => messages[i]
  }

  lemma UpsertTwoRow(messages: seq<Message>, a: Message, b: Message)
    requires a.id == b.id
    ensures UpsertIntoList(UpsertIntoList(messages, a), b)
         == match IndexOf(messages, a.id)
            case None => messages + [Filled(Filled(RowOf(messages, a.id), a), b)]
            case Some(i) => messages[i := Filled(Filled(RowOf(messages, a.id), a), b)]
  {
    UpsertTwo(messages, a, b);
    assert Filled(Message(a.id, map[]), a) == a;
  }

  /** The send response and its echo may arrive in either order exactly when they do not contradict each other. */
  lemma ArrivalOrderIrrelevant(messages: seq<Message>, a: Message, b: Message)
    requires a.id == b.id
    ensures UpsertIntoList(UpsertIntoList(messages, a), b) == UpsertIntoList(UpsertIntoList(messages, b), a) <==>
            Compatible(RowOf(messages, a.id), a, b)
  {
    var row := RowOf(messages, a.id);
    UpsertTwoRow(messages, a, b);
    UpsertTwoRow(messages, b, a);
    FillsCommute(row, a, b);
    RowsDiffer(messages, IndexOf(messages, a.id), Filled(Filled(row, a), b), Filled(Filled(row, b), a));
  }

  lemma RowsDiffer(messages: seq<Message>, at: Option<nat>, x: Message, y: Message)
    requires at.Some? ==> at.value < |messages|
    ensures at.None? ==> (messages + [x] == messages + [y] <==> x == y)
    ensures at.Some? ==> (messages[at.value := x] == messages[at.value := y] <==> x == y)
  {
    assert (messages + [x])[|messages|] == x && (messages + [y])[|messages|] == y;
    if at.Some? {
      assert messages[at.value := x][at.value] == x && messages[at.value := y][at.value] == y;
    }
  }

  // ---- Both caches over whole runs ----

  // A cache that was never filled is absent; paged data without pages counts as absent.
  datatype Caches = Caches(flat: Option<seq<Message>>, pages: Option<seq<Page>>)

  function SeedPage(m: Message): seq<Page> {
    [Page([m], 50, false, None)]
  }

  function Upsert(c: Caches, m: Message, seedIfMissing: bool): Caches {
    Caches(
      if c.flat.Some? then Some(UpsertIntoList(c.flat.value, m)) else if seedIfMissing then Some([m]) else None,
      if c.pages.Some? && c.pages.value != [] then Some(UpsertedPages(c.pages.value, m))
      else if seedIfMissing then Some(SeedPage(m))
      else c.pages)
  }

  /** The cached data of one session. */
  class QueryCache {
    var messages: Option<seq<Message>>
    var messagesPage: Option<seq<Page>>

    ghost function State(): Caches
      reads this
    {
      Caches(messages, messagesPage)
    }

    method UpsertChatMessage(m: Message, seedIfMissing: bool)
      modifies this
      ensures State() == Upsert(old(State()), m, seedIfMissing)
      ensures old(Agree(State())) ==> Agree(State())
    {
      if Agree(State()) {
        UpsertKeepsAgreement(State(), m, seedIfMissing);
      }
      if messages.None? {
        messages := if seedIfMissing then Some([m]) else messages;
      } else {
        messages := Some(UpsertIntoList(messages.value, m));
      }
      if messagesPage.None? || |messagesPage.value| == 0 {
        messagesPage := if seedIfMissing then Some(SeedPage(m)) else messagesPage;
      } else {
        var pages := UpsertIntoPages(messagesPage.value, m);
        messagesPage := Some(pages);
      }
    }
  }

  // Both caches are absent, or both show the same rows, each once.
  ghost predicate Agree(c: Caches) {
    if c.flat.None? then c.pages.None? || c.pages.value == []
    else c.pages.Some? && c.pages.value != [] && Flat(c.pages.value) == c.flat.value && UniqueIds(c.flat.value)
  }

  lemma UpsertKeepsAgreement(c: Caches, m: Message, seedIfMissing: bool)
    requires Agree(c)
    ensures Agree(Upsert(c, m, seedIfMissing))
  {
    if c.flat.Some? {
      UpsertRefines(c.pages.value, m);
      UpsertGrows(c.flat.value, m);
    } else {
      assert SeedPage(m)[1..] == [] && Flat(SeedPage(m)) == [] + [m] == [m];
    }
  }

  function Run(c: Caches, ms: seq<(Message, bool)>): Caches {
    if ms == [] then c else Upsert(Run(c, ms[..|ms| - 1]), ms[|ms| - 1].0, ms[|ms| - 1].1)
  }

  /** Two caches that agree keep agreeing over every run of upserts, and no shown row or set field is ever lost. */
  lemma {:induction false} RunKeepsAgreement(c: Caches, ms: seq<(Message, bool)>)
    requires Agree(c)
    ensures Agree(Run(c, ms))
    ensures c.flat.Some? ==> Run(c, ms).flat.Some? && Grows(c.flat.value, Run(c, ms).flat.value)
  {
    if ms != [] {
      var before, last := Run(c, ms[..|ms| - 1]), ms[|ms| - 1];
      RunKeepsAgreement(c, ms[..|ms| - 1]);
      UpsertKeepsAgreement(before, last.0, last.1);
      if c.flat.Some? {
        UpsertGrows(before.flat.value, last.0);
        GrowsOn(c.flat.value, before.flat.value, UpsertIntoList(before.flat.value, last.0));
      }
    }
  }

  lemma GrowsOn(a: seq<Message>, b: seq<Message>, c: seq<Message>)
    requires Grows(a, b) && Grows(b, c)
    ensures Grows(a, c)
  {
    forall i | 0 <= i < |a| ensures Richer(a[i], c[i]) {
      assert Richer(a[i], b[i]) && Richer(b[i], c[i]);
    }
  }

  // ---- Row by row ----

  // The row with its open fields filled from the message.
  ghost predicate Fills(row: Message, m: Message, after: Message) {
    && after.id == row.id
    && forall k ::
         && (k in after.fields <==> k in row.fields || k in m.fields)
         && (k in row.fields ==> k in after.fields && after.fields[k] == row.fields[k])
         && (k in m.fields && k !in row.fields ==> k in after.fields && after.fields[k] == m.fields[k])
  }

  // The first row of the message is filled, if there is one; all others stay as they are.
  ghost predicate FillsFirst(rows: seq<Message>, m: Message, after: seq<Message>) {
    && |after| == |rows|
    && forall i :: 0 <= i < |rows| ==>
         if rows[i].id == m.id && forall j :: 0 <= j < i ==> rows[j].id != m.id then Fills(rows[i], m, after[i]) else after[i] == rows[i]
  }

  lemma {:induction false} IndexIsFirst(rows: seq<Message>, id: string)
    ensures var r := IndexOf(rows, id);
            if r.Some? then forall j :: 0 <= j < r.value ==> rows[j].id != id else forall j :: 0 <= j < |rows| ==> rows[j].id != id
  {
    if rows != [] && rows[0].id != id {
      IndexIsFirst(rows[1..], id);
      forall j | 0 < j < |rows| ensures rows[j] == rows[1..][j - 1] {
      }
    }
  }

  lemma MergeFillsFirst(rows: seq<Message>, m: Message)
    ensures FillsFirst(rows, m, MergeIntoList(rows, m))
  {
    IndexIsFirst(rows, m.id);
  }

  ghost predicate SamePage(p: Page, q: Page) {
    q.limit == p.limit && q.hasMore == p.hasMore && q.cursor == p.cursor
  }

  /** The flat cache: a known message fills its row, a new one goes to the end; a cache never filled starts only if it may. */
  lemma FlatUpsertLeaves(c: Caches, m: Message, seedIfMissing: bool)
    ensures var r := Upsert(c, m, seedIfMissing).flat;
            if c.flat == None then r == if seedIfMissing then Some([m]) else None
            else if exists row :: row in c.flat.value && row.id == m.id then r.Some? && FillsFirst(c.flat.value, m, r.value)
            else r == Some(c.flat.value + [m])
  {
    if c.flat.Some? {
      MergeFillsFirst(c.flat.value, m);
    }
  }

  /** The pages: a known message fills its row on every page that has one, a new one goes to the end of the newest page. */
  lemma PagesUpsertLeave(c: Caches, m: Message, seedIfMissing: bool)
    ensures var r := Upsert(c, m, seedIfMissing).pages;
            if c.pages == None || c.pages == Some([]) then
              r == if seedIfMissing then Some([Page([m], 50, false, None)]) else c.pages
            else
              var ps := c.pages.value;
              && r.Some? && |r.value| == |ps| && (forall i :: 0 <= i < |ps| ==> SamePage(ps[i], r.value[i]))
              && if exists p, row :: p in ps && row in p.messages && row.id == m.id then
                   forall i :: 0 <= i < |ps| ==> FillsFirst(ps[i].messages, m, r.value[i].messages)
                 else
                   r.value[0].messages == ps[0].messages + [m] && forall i :: 0 < i < |ps| ==> r.value[i].messages == ps[i].messages
  {
    if c.pages.Some? {
      var ps := c.pages.value;
      forall i | 0 <= i < |ps|
        ensures MergeIntoPages(ps, m)[i] == ps[i].(messages := MergeIntoList(ps[i].messages, m))
        ensures FillsFirst(ps[i].messages, m, MergeIntoList(ps[i].messages, m))
      {
        MergedPageAt(ps, m, i);
        MergeFillsFirst(ps[i].messages, m);
      }
    }
  }
}
