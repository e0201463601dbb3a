/** Bundling a timeline into rows: each top-level entry with its whole reply thread. */
module TimelineThread {
  import opened Wrappers
  import opened Sequences

  datatype Entry = Entry(id: string, isComment: bool, parent: Option<string>)

  datatype Row = Row(entry: Entry, replies: seq<Entry>)

  function CommentIds(entries: seq<Entry>): set<string> {
    set e | e in entries && e.isComment :: e.id
  }

  // A comment that names another loaded comment as its parent.
  predicate IsChild(entries: seq<Entry>, e: Entry) {
    e.isComment && e.parent.Some? && e.parent.value != "" && e.parent.value in CommentIds(entries)
  }

  function Filter(p: Entry -> bool, q: seq<Entry>): seq<Entry> {
    if q == [] then [] else Filter(p, q[..|q| - 1]) + (if p(q[|q| - 1]) then [q[|q| - 1]] else [])
  }

  function IsTop(entries: seq<Entry>): Entry -> bool {
    (e: Entry) => !IsChild(entries, e)
  }

  function IsKidOf(entries: seq<Entry>, id: string): Entry -> bool {
    (e: Entry) => IsChild(entries, e) && e.parent.value == id
  }

  function TopLevel(entries: seq<Entry>): seq<Entry> {
    Filter(IsTop(entries), entries)
  }

  function Kids(entries: seq<Entry>, id: string): seq<Entry> {
    Filter(IsKidOf(entries, id), entries)
  }

  function FlatKids(entries: seq<Entry>, ids: seq<string>): seq<Entry> {
    if ids == [] then [] else FlatKids(entries, ids[..|ids| - 1]) + Kids(entries, ids[|ids| - 1])
  }

  function Ids(q: seq<Entry>): (r: seq<string>)
    ensures |r| == |q|
  {
    if q == [] then [] else Ids(q[..|q| - 1]) + [q[|q| - 1].id]
  }

  // Comments have distinct ids.
  ghost predicate UniqueIds(entries: seq<Entry>) {
    forall i, j :: 0 <= i < j < |entries| && entries[i].isComment && entries[j].isComment ==> entries[i].id != entries[j].id
  }

  // ---- Ancestors ----

  ghost function CommentOf(entries: seq<Entry>, id: string): (e: Entry)
    requires id in CommentIds(entries)
    ensures e in entries && e.isComment && e.id == id
  {
    var e :| e in entries && e.isComment && e.id == id;
    e
  }

  // The d-fold parent of an entry, if it has that many ancestors in the batch.
  ghost function Ancestor(entries: seq<Entry>, e: Entry, d: nat): Option<Entry>
    decreases d
  {
    if d == 0 then Some(e)
    else if IsChild(entries, e) then Ancestor(entries, CommentOf(entries, e.parent.value), d - 1)
    else None
  }

  // The entry is a reply of the root, d levels down.
  ghost predicate ReplyAt(entries: seq<Entry>, root: Entry, e: Entry, d: nat) {
    1 <= d && Ancestor(entries, e, d) == Some(root)
  }

  ghost predicate Descends(entries: seq<Entry>, root: Entry, e: Entry) {
    exists d: nat :: ReplyAt(entries, root, e, d)
  }

  // ---- Membership and distinctness ----

  lemma {:induction false} FilterMembers(p: Entry -> bool, q: seq<Entry>)
    ensures forall e :: e in Filter(p, q) <==> e in q && p(e)
  {
    if q != [] {
      FilterMembers(p, q[..|q| - 1]);
      InitLast(q);
    }
  }

  lemma {:induction false} IdsMembers(q: seq<Entry>, id: string)
    ensures id in Ids(q) <==> exists e :: e in q && e.id == id
  {
    if q != [] {
      InitLast(q);
      IdsMembers(q[..|q| - 1], id);
    }
  }

  lemma {:induction false} IdsConcat(a: seq<Entry>, b: seq<Entry>)
    ensures Ids(a + b) == Ids(a) + Ids(b)
  {
    if b == [] {
      assert a + b == a;
    } else {
      assert (a + b)[..|a + b| - 1] == a + b[..|b| - 1];
      IdsConcat(a, b[..|b| - 1]);
    }
  }

  lemma SameComment(entries: seq<Entry>, a: Entry, b: Entry)
    requires UniqueIds(entries) && a in entries && b in entries && a.isComment && b.isComment && a.id == b.id
    ensures a == b
  {
    var i :| 0 <= i < |entries| && entries[i] == a;
    var j :| 0 <= j < |entries| && entries[j] == b;
  }

  lemma {:induction false} FilteredCommentsDistinct(entries: seq<Entry>, p: Entry -> bool)
    requires UniqueIds(entries) && forall e | p(e) :: e.isComment
    ensures NoDup(Ids(Filter(p, entries)))
  {
    if entries != [] {
      var init, last := entries[..|entries| - 1], entries[|entries| - 1];
      FilteredCommentsDistinct(init, p);
      if p(last) {
        var kept := Filter(p, init);
        FilterMembers(p, init);
        forall e | e in kept ensures e.id != last.id {
          var i :| 0 <= i < |init| && init[i] == e;
          assert entries[i] == e;
        }
        IdsMembers(kept, last.id);
        IdsConcat(kept, [last]);
        assert [last][..0] == [] && Ids([last]) == [last.id];
        assert [last.id][..0] == [] && NoDup([last.id]);
        NoDupConcat(Ids(kept), [last.id]);
      } else {
        assert Filter(p, entries) == Filter(p, init) + [] == Filter(p, init);
      }
    }
  }

  lemma KidsFacts(entries: seq<Entry>, id: string)
    requires UniqueIds(entries)
    ensures NoDup(Ids(Kids(entries, id)))
    ensures forall e :: e in Kids(entries, id) <==> e in entries && IsChild(entries, e) && e.parent.value == id
  {
    var p := IsKidOf(entries, id);
    FilteredCommentsDistinct(entries, p);
    FilterMembers(p, entries);
  }

  lemma {:induction false} FlatKidsMembers(entries: seq<Entry>, ids: seq<string>)
    requires UniqueIds(entries)
    ensures forall e :: e in FlatKids(entries, ids) <==> e in entries && IsChild(entries, e) && e.parent.value in ids
  {
    if ids != [] {
      InitLast(ids);
      FlatKidsMembers(entries, ids[..|ids| - 1]);
      KidsFacts(entries, ids[|ids| - 1]);
    }
  }

  // ---- The breadth-first collection ----

  // What the queue loop has done after `processed` left the queue.
  ghost predicate Progress(entries: seq<Entry>, root: string, processed: seq<string>, queue: seq<string>, out: seq<Entry>) {
    && [root] + Ids(out) == processed + queue
    && out == FlatKids(entries, processed)
    && NoDup(processed + queue)
  }

  lemma NewReplies(entries: seq<Entry>, root: Entry, processed: seq<string>, pid: string, out: seq<Entry>, x: string)
    requires UniqueIds(entries) && root in entries && root.isComment && !IsChild(entries, root)
    requires out == FlatKids(entries, processed) && pid !in processed
    requires x in Ids(Kids(entries, pid))
    ensures x != root.id && x !in Ids(out)
  {
    KidsFacts(entries, pid);
    FlatKidsMembers(entries, processed);
    IdsMembers(Kids(entries, pid), x);
    IdsMembers(out, x);
    var k :| k in Kids(entries, pid) && k.id == x;
    if x in Ids(out) {
      var o :| o in out && o.id == x;
      SameComment(entries, k, o);
    }
    if x == root.id {
      SameComment(entries, k, root);
    }
  }

  lemma ProgressStep(entries: seq<Entry>, root: Entry, processed: seq<string>, queue: seq<string>, out: seq<Entry>)
    requires UniqueIds(entries) && root in entries && root.isComment && !IsChild(entries, root)
    requires Progress(entries, root.id, processed, queue, out) && queue != []
    ensures Progress(entries, root.id, processed + [queue[0]], queue[1..] + Ids(Kids(entries, queue[0])),
                     out + Kids(entries, queue[0]))
  {
    var pid, kids := queue[0], Kids(entries, queue[0]);
    KidsFacts(entries, pid);
    NoDupConcat(processed, queue);
    assert pid in queue && pid !in processed;
    IdsConcat(out, kids);
    var seen := processed + queue;
    forall x | x in seen ensures x !in Ids(kids) {
      assert x in [root.id] + Ids(out);
      if x in Ids(kids) {
        NewReplies(entries, root, processed, pid, out, x);
      }
    }
    NoDupConcat(seen, Ids(kids));
    Shift(root.id, Ids(out), processed, queue, Ids(kids));
    FlatKidsAppend(entries, processed, pid);
  }

  lemma Shift(root: string, out: seq<string>, processed: seq<string>, queue: seq<string>, kids: seq<string>)
    requires [root] + out == processed + queue && queue != []
    ensures [root] + (out + kids) == (processed + [queue[0]]) + (queue[1..] + kids)
    ensures (processed + [queue[0]]) + (queue[1..] + kids) == (processed + queue) + kids
  {
    assert [root] + (out + kids) == ([root] + out) + kids;
  }

  lemma FlatKidsAppend(entries: seq<Entry>, ids: seq<string>, id: string)
    ensures FlatKids(entries, ids + [id]) == FlatKids(entries, ids) + Kids(entries, id)
  {
    assert (ids + [id])[..|ids|] == ids;
  }

  lemma {:induction false} FewIds(entries: seq<Entry>)
    ensures |CommentIds(entries)| <= |entries|
  {
    if entries != [] {
      var init, last := entries[..|entries| - 1], entries[|entries| - 1];
      InitLast(entries);
      FewIds(init);
      assert CommentIds(entries) == CommentIds(init) + (if last.isComment then {last.id} else {});
    }
  }

  lemma ProgressFits(entries: seq<Entry>, root: string, processed: seq<string>, queue: seq<string>, out: seq<Entry>)
    requires UniqueIds(entries) && Progress(entries, root, processed, queue, out)
    ensures |out| <= |entries|
  {
    NoDupConcat([root], Ids(out));
    FlatKidsMembers(entries, processed);
    forall x | x in Ids(out) ensures x in CommentIds(entries) {
      IdsMembers(out, x);
    }
    NoDupFits(Ids(out), CommentIds(entries));
    FewIds(entries);
  }

  // Depths of the root, at index 0, and of the replies so far: true, ascending, and within one of the queue's head.
  ghost predicate Depths(entries: seq<Entry>, root: Entry, out: seq<Entry>, depth: seq<nat>, head: nat) {
    && |depth| == |out| + 1 && depth[0] == 0
    && (forall i :: 0 <= i < |out| ==> ReplyAt(entries, root, out[i], depth[i + 1]))
    && (forall i, j :: 0 <= i < j < |depth| ==> depth[i] <= depth[j])
    && (head < |depth| ==> depth[|out|] <= depth[head] + 1)
  }

  lemma {:induction false} IdAt(q: seq<Entry>, i: nat)
    requires i < |q|
    ensures Ids(q)[i] == q[i].id
  {
    if i < |q| - 1 {
      IdAt(q[..|q| - 1], i);
    }
  }

  // The kids of the queue's head lie one level below it.
  lemma KidDepth(entries: seq<Entry>, root: Entry, processed: seq<string>, queue: seq<string>, out: seq<Entry>, depth: seq<nat>, k: Entry)
    requires UniqueIds(entries) && root in entries && root.isComment
    requires Progress(entries, root.id, processed, queue, out) && queue != []
    requires Depths(entries, root, out, depth, |processed|) && k in Kids(entries, queue[0])
    ensures |processed| < |depth| && ReplyAt(entries, root, k, depth[|processed|] + 1)
  {
    var h := |processed|;
    KidsFacts(entries, queue[0]);
    FlatKidsMembers(entries, processed);
    assert |[root.id] + Ids(out)| == |processed + queue|;
    assert queue[0] == ([root.id] + Ids(out))[h];
    if h == 0 {
      ParentComment(entries, k, root);
    } else {
      IdAt(out, h - 1);
      assert out[h - 1] in out && ReplyAt(entries, root, out[h - 1], depth[h]);
      ParentComment(entries, k, out[h - 1]);
    }
  }

  lemma DepthsStep(entries: seq<Entry>, root: Entry, out: seq<Entry>, depth: seq<nat>, h: nat, kids: seq<Entry>)
    requires Depths(entries, root, out, depth, h) && h < |depth|
    requires forall k | k in kids :: ReplyAt(entries, root, k, depth[h] + 1)
    ensures Depths(entries, root, out + kids, depth + Levels(|kids|, depth[h] + 1), h + 1)
  {
    var longer := depth + Levels(|kids|, depth[h] + 1);
    forall i | 0 <= i < |out + kids| ensures ReplyAt(entries, root, (out + kids)[i], longer[i + 1]) {
      if i >= |out| {
        assert kids[i - |out|] in kids;
      }
    }
  }

  ghost function Levels(n: nat, d: nat): seq<nat> {
    seq(n, i => d)
  }

  ghost predicate Searching(entries: seq<Entry>, root: Entry, processed: seq<string>, queue: seq<string>, out: seq<Entry>, depth: seq<nat>) {
    && Progress(entries, root.id, processed, queue, out)
    && Depths(entries, root, out, depth, |processed|)
  }

  lemma SearchStarts(entries: seq<Entry>, root: Entry)
    ensures Searching(entries, root, [], [root.id], [], [0])
  {
    assert [root.id][..0] == [];
  }

  lemma SearchStep(entries: seq<Entry>, root: Entry, processed: seq<string>, queue: seq<string>, out: seq<Entry>, depth: seq<nat>)
    requires UniqueIds(entries) && root in entries && root.isComment && !IsChild(entries, root)
    requires Searching(entries, root, processed, queue, out, depth) && queue != []
    ensures |processed| < |depth|
    ensures var kids := Kids(entries, queue[0]);
            && Searching(entries, root, processed + [queue[0]], queue[1..] + Ids(kids), out + kids,
                         depth + Levels(|kids|, depth[|processed|] + 1))
            && |out + kids| <= |entries|
  {
    var kids := Kids(entries, queue[0]);
    ProgressStep(entries, root, processed, queue, out);
    assert |[root.id] + Ids(out)| == |processed + queue|;
    forall k | k in kids ensures ReplyAt(entries, root, k, depth[|processed|] + 1) {
      KidDepth(entries, root, processed, queue, out, depth, k);
    }
    DepthsStep(entries, root, out, depth, |processed|, kids);
    ProgressFits(entries, root.id, processed + [queue[0]], queue[1..] + Ids(kids), out + kids);
  }

  lemma SearchEnds(entries: seq<Entry>, root: Entry, processed: seq<string>, out: seq<Entry>, depth: seq<nat>)
    requires Searching(entries, root, processed, [], out, depth)
    ensures IsThread(entries, root, out)
  {
    assert processed + [] == processed;
    assert Leveled(entries, root, out, depth[1..]);
  }

  // ---- The search itself ----

  // The queue after n turns of the loop.
  function QueueAfter(entries: seq<Entry>, queue: seq<string>, n: nat): seq<string>
    decreases n
  {
    if n == 0 || queue == [] then queue
    else QueueAfter(entries, queue[1..] + Ids(Kids(entries, queue[0])), n - 1)
  }

  // What n turns of the loop collect.
  function Collected(entries: seq<Entry>, queue: seq<string>, n: nat): seq<Entry>
    decreases n
  {
    if n == 0 || queue == [] then []
    else Kids(entries, queue[0]) + Collected(entries, queue[1..] + Ids(Kids(entries, queue[0])), n - 1)
  }

  // The search from this id ends.
  ghost predicate Ends(entries: seq<Entry>, id: string) {
    exists n: nat :: QueueAfter(entries, [id], n) == []
  }

  // The replies are what the search from this id has collected when it ends.
  ghost predicate IsCollected(entries: seq<Entry>, id: string, replies: seq<Entry>) {
    exists n: nat :: QueueAfter(entries, [id], n) == [] && replies == Collected(entries, [id], n)
  }

  lemma ConcatNothing<T>(q: seq<T>)
    ensures q + [] == q && [] + q == q
  {
  }

  method CollectDescendants(ghost entries: seq<Entry>, childrenByParent: map<string, seq<Entry>>, parentId: string)
    returns (out: seq<Entry>)
    requires KidsAmong(entries, entries, childrenByParent) && Ends(entries, parentId)
    ensures IsCollected(entries, parentId, out)
  {
    out := [];
    var queue := [parentId];
    ghost var turns: nat :| QueueAfter(entries, [parentId], turns) == [];
    ghost var left: nat := turns;
    ConcatNothing(Collected(entries, queue, turns));
    while |queue| > 0
      invariant left <= turns && QueueAfter(entries, queue, left) == []
      invariant Collected(entries, [parentId], turns) == out + Collected(entries, queue, left)
      decreases left
    {
      var pid := queue[0];
      ghost var kids := Kids(entries, pid);
      assert Look(childrenByParent, pid) == kids;
      ConcatAssoc(out, kids, Collected(entries, queue[1..] + Ids(kids), left - 1));
      queue := queue[1..];
      if pid in childrenByParent {
        out, queue := PushAll(childrenByParent[pid], out, queue);
      } else {
        ConcatNothing(queue);
        ConcatNothing(out);
      }
      left := left - 1;
    }
    ConcatNothing(out);
  }

  method PushAll(kids: seq<Entry>, before: seq<Entry>, rest: seq<string>) returns (out: seq<Entry>, queue: seq<string>)
    ensures out == before + kids && queue == rest + Ids(kids)
  {
    out, queue := before, rest;
    for i := 0 to |kids|
      invariant out == before + kids[..i] && queue == rest + Ids(kids[..i])
    {
      assert kids[..i + 1][..i] == kids[..i];
      out := out + [kids[i]];
      queue := queue + [kids[i].id];
    }
    assert kids[..|kids|] == kids;
  }

  // ---- What was collected ----

  // True depths of the replies, in non-decreasing order.
  ghost predicate Leveled(entries: seq<Entry>, root: Entry, out: seq<Entry>, depth: seq<nat>) {
    && |depth| == |out|
    && (forall i :: 0 <= i < |out| ==> ReplyAt(entries, root, out[i], depth[i]))
    && (forall i, j :: 0 <= i < j < |out| ==> depth[i] <= depth[j])
  }

  // The collected list is closed under replies, repeats no id, and goes level by level.
  ghost predicate IsThread(entries: seq<Entry>, root: Entry, out: seq<Entry>) {
    && out == FlatKids(entries, [root.id] + Ids(out))
    && NoDup([root.id] + Ids(out))
    && exists depth :: Leveled(entries, root, out, depth)
  }

  // With distinct ids the search goes on as it has begun, and ends.
  lemma {:induction false} SearchCompletes(entries: seq<Entry>, root: Entry, processed: seq<string>, queue: seq<string>,
                                           out: seq<Entry>, depth: seq<nat>) returns (n: nat)
    requires UniqueIds(entries) && root in entries && root.isComment && !IsChild(entries, root)
    requires Searching(entries, root, processed, queue, out, depth) && |out| <= |entries|
    ensures QueueAfter(entries, queue, n) == [] && IsThread(entries, root, out + Collected(entries, queue, n))
    decreases 2 * (|entries| - |out|) + |queue|
  {
    if queue == [] {
      n := 0;
      SearchEnds(entries, root, processed, out, depth);
      ConcatNothing(out);
    } else {
      var kids := Kids(entries, queue[0]);
      SearchStep(entries, root, processed, queue, out, depth);
      var m := SearchCompletes(entries, root, processed + [queue[0]], queue[1..] + Ids(kids), out + kids,
                               depth + Levels(|kids|, depth[|processed|] + 1));
      n := m + 1;
      ConcatAssoc(out, kids, Collected(entries, queue[1..] + Ids(kids), m));
    }
  }

  lemma {:induction false} DoneStaysDone(entries: seq<Entry>, queue: seq<string>, m: nat, n: nat)
    requires QueueAfter(entries, queue, m) == [] && QueueAfter(entries, queue, n) == []
    ensures Collected(entries, queue, m) == Collected(entries, queue, n)
    decreases m
  {
    if queue != [] {
      DoneStaysDone(entries, queue[1..] + Ids(Kids(entries, queue[0])), m - 1, n - 1);
    }
  }

  /** With distinct comment ids the search from a top-level comment ends, even among cycles, with the whole thread. */
  lemma UniqueIdsEnd(entries: seq<Entry>, root: Entry)
    requires UniqueIds(entries) && root in entries && root.isComment && !IsChild(entries, root)
    ensures Ends(entries, root.id)
    ensures forall replies :: IsCollected(entries, root.id, replies) ==> IsThread(entries, root, replies)
  {
    SearchStarts(entries, root);
    var n := SearchCompletes(entries, root, [], [root.id], [], [0]);
    ConcatNothing(Collected(entries, [root.id], n));
    forall replies | IsCollected(entries, root.id, replies) ensures IsThread(entries, root, replies) {
      var m: nat :| QueueAfter(entries, [root.id], m) == [] && replies == Collected(entries, [root.id], m);
      DoneStaysDone(entries, [root.id], m, n);
    }
  }

  lemma ParentComment(entries: seq<Entry>, e: Entry, p: Entry)
    requires UniqueIds(entries) && IsChild(entries, e) && p in entries && p.isComment && p.id == e.parent.value
    ensures CommentOf(entries, e.parent.value) == p
  {
    SameComment(entries, CommentOf(entries, e.parent.value), p);
  }

  lemma {:induction false} ThreadHasDescendant(entries: seq<Entry>, root: Entry, out: seq<Entry>, e: Entry, d: nat)
    requires UniqueIds(entries) && IsThread(entries, root, out)
    requires e in entries && ReplyAt(entries, root, e, d)
    ensures e in out
    decreases d
  {
    FlatKidsMembers(entries, [root.id] + Ids(out));
    assert IsChild(entries, e);
    var p := CommentOf(entries, e.parent.value);
    assert Ancestor(entries, p, d - 1) == Some(root);
    if d > 1 {
      ThreadHasDescendant(entries, root, out, p, d - 1);
      IdsMembers(out, p.id);
    }
  }

  /** A row's replies are exactly the descendants of its entry, once each, parents never after their replies' level. */
  lemma ThreadIsDescendants(entries: seq<Entry>, root: Entry, out: seq<Entry>, e: Entry)
    requires UniqueIds(entries) && IsThread(entries, root, out)
    ensures e in out <==> e in entries && Descends(entries, root, e)
    ensures NoDup(Ids(out)) && root !in out
  {
    FlatKidsMembers(entries, [root.id] + Ids(out));
    NoDupConcat([root.id], Ids(out));
    IdsMembers(out, root.id);
    if e in out {
      var depth :| Leveled(entries, root, out, depth);
      var i :| 0 <= i < |out| && out[i] == e;
      assert ReplyAt(entries, root, e, depth[i]);
    }
    if e in entries && Descends(entries, root, e) {
      var d: nat :| ReplyAt(entries, root, e, d);
      ThreadHasDescendant(entries, root, out, e, d);
    }
  }

  // ---- The rows ----

  ghost predicate RowOf(entries: seq<Entry>, row: Row, e: Entry) {
    row.entry == e && if e.isComment then IsThread(entries, e, row.replies) else row.replies == []
  }

  ghost predicate RowsOf(entries: seq<Entry>, rows: seq<Row>, tops: seq<Entry>) {
    |rows| == |tops| && forall i :: 0 <= i < |tops| ==> RowOf(entries, rows[i], tops[i])
  }

  method CollectIds(entries: seq<Entry>) returns (commentIds: set<string>)
    ensures commentIds == CommentIds(entries)
  {
    commentIds := {};
    for i := 0 to |entries|
      invariant commentIds == CommentIds(entries[..i])
    {
      assert entries[..i + 1] == entries[..i] + [entries[i]];
      if entries[i].isComment {
        commentIds := commentIds + {entries[i].id};
      }
    }
    assert entries[..|entries|] == entries;
  }

  function Look(children: map<string, seq<Entry>>, id: string): seq<Entry> {
    if id in children then children[id] else []
  }

  // Each id's list holds its kids among these entries, in order.
  ghost predicate KidsAmong(entries: seq<Entry>, some: seq<Entry>, children: map<string, seq<Entry>>) {
    forall id :: Look(children, id) == Filter(IsKidOf(entries, id), some)
  }

  lemma FilterAppend(p: Entry -> bool, q: seq<Entry>, e: Entry)
    ensures Filter(p, q + [e]) == if p(e) then Filter(p, q) + [e] else Filter(p, q)
  {
    assert (q + [e])[..|q|] == q;
  }

  lemma KidsAppend(entries: seq<Entry>, some: seq<Entry>, children: map<string, seq<Entry>>, e: Entry)
    requires KidsAmong(entries, some, children)
    ensures KidsAmong(entries, some + [e],
              if IsChild(entries, e) then children[e.parent.value := Look(children, e.parent.value) + [e]] else children)
  {
    forall id ensures Filter(IsKidOf(entries, id), some + [e])
                   == if IsKidOf(entries, id)(e) then Look(children, id) + [e] else Look(children, id) {
      FilterAppend(IsKidOf(entries, id), some, e);
    }
  }

  method Partition(entries: seq<Entry>) returns (topLevel: seq<Entry>, childrenByParent: map<string, seq<Entry>>)
    ensures topLevel == TopLevel(entries)
    ensures KidsAmong(entries, entries, childrenByParent)
  {
    var commentIds := CollectIds(entries);
    topLevel, childrenByParent := [], map[];
    for i := 0 to |entries|
      invariant topLevel == Filter(IsTop(entries), entries[..i])
      invariant KidsAmong(entries, entries[..i], childrenByParent)
    {
      var e := entries[i];
      assert entries[..i + 1] == entries[..i] + [e];
      KidsAppend(entries, entries[..i], childrenByParent, e);
      FilterAppend(IsTop(entries), entries[..i], e);
      if e.isComment && e.parent.Some? && e.parent.value != "" && e.parent.value in commentIds {
        var list := if e.parent.value in childrenByParent then childrenByParent[e.parent.value] else [];
        childrenByParent := childrenByParent[e.parent.value := list + [e]];
      } else {
        topLevel := topLevel + [e];
      }
    }
    assert entries[..|entries|] == entries;
  }

  // The row of a top-level entry as the search leaves it.
  ghost predicate FoundRow(entries: seq<Entry>, row: Row, e: Entry) {
    row.entry == e && if e.isComment then IsCollected(entries, e.id, row.replies) else row.replies == []
  }

  method BuildRow(ghost entries: seq<Entry>, childrenByParent: map<string, seq<Entry>>, entry: Entry) returns (row: Row)
    requires (entry.isComment ==> Ends(entries, entry.id)) && KidsAmong(entries, entries, childrenByParent)
    ensures FoundRow(entries, row, entry)
  {
    var replies := [];
    if entry.isComment {
      replies := CollectDescendants(entries, childrenByParent, entry.id);
    }
    row := Row(entry, replies);
  }

  // Every search that building the rows starts does end.
  ghost predicate AllEnd(entries: seq<Entry>) {
    forall t | t in TopLevel(entries) && t.isComment :: Ends(entries, t.id)
  }

  ghost predicate FoundRows(entries: seq<Entry>, rows: seq<Row>) {
    |rows| == |TopLevel(entries)| && forall i | 0 <= i < |rows| :: FoundRow(entries, rows[i], TopLevel(entries)[i])
  }

  method BuildTimelineRows(entries: seq<Entry>) returns (rows: seq<Row>)
    requires AllEnd(entries)
    ensures FoundRows(entries, rows)
    ensures UniqueIds(entries) ==> RowsOf(entries, rows, TopLevel(entries))
  {
    var topLevel, childrenByParent := Partition(entries);
    rows := [];
    for i := 0 to |topLevel|
      invariant |rows| == i && forall j :: 0 <= j < i ==> FoundRow(entries, rows[j], topLevel[j])
    {
      assert topLevel[i] in topLevel;
      var row := BuildRow(entries, childrenByParent, topLevel[i]);
      rows := rows + [row];
    }
    if UniqueIds(entries) {
      RowsAreThreads(entries, rows);
    }
  }

  /** With distinct comment ids all searches end, and every row holds its entry's thread. */
  lemma RowsAreThreads(entries: seq<Entry>, rows: seq<Row>)
    requires UniqueIds(entries)
    ensures AllEnd(entries)
    ensures FoundRows(entries, rows) ==> RowsOf(entries, rows, TopLevel(entries))
  {
    var tops := TopLevel(entries);
    FilterMembers(IsTop(entries), entries);
    forall t | t in tops && t.isComment
      ensures Ends(entries, t.id)
      ensures forall replies :: IsCollected(entries, t.id, replies) ==> IsThread(entries, t, replies)
    {
      UniqueIdsEnd(entries, t);
    }
    if FoundRows(entries, rows) {
      forall i | 0 <= i < |tops| ensures RowOf(entries, rows[i], tops[i]) {
        assert tops[i] in tops && FoundRow(entries, rows[i], tops[i]);
      }
    }
  }

  // ---- Conservation ----

  // The entry is top-level or some ancestor is: its thread has a row.
  ghost predicate Rooted(entries: seq<Entry>, e: Entry) {
    exists d: nat, top: Entry :: Ancestor(entries, e, d) == Some(top) && !IsChild(entries, top)
  }

  // The entry is its own ancestor.
  ghost predicate OnCycle(entries: seq<Entry>, e: Entry) {
    exists d: nat :: 1 <= d && Ancestor(entries, e, d) == Some(e)
  }

  lemma {:induction false} AncestorAdds(entries: seq<Entry>, e: Entry, c: nat, d: nat)
    requires Ancestor(entries, e, c).Some?
    ensures Ancestor(entries, e, c + d) == Ancestor(entries, Ancestor(entries, e, c).value, d)
    decreases c
  {
    if c > 0 {
      AncestorAdds(entries, CommentOf(entries, e.parent.value), c - 1, d);
    }
  }

  lemma {:induction false} AncestorLoaded(entries: seq<Entry>, e: Entry, d: nat)
    requires e in entries && Ancestor(entries, e, d).Some?
    ensures Ancestor(entries, e, d).value in entries
    ensures d > 0 ==> Ancestor(entries, e, d).value.isComment
    decreases d
  {
    if d > 0 {
      AncestorLoaded(entries, CommentOf(entries, e.parent.value), d - 1);
      if d == 1 {
        assert Ancestor(entries, CommentOf(entries, e.parent.value), 0) == Some(CommentOf(entries, e.parent.value));
      }
    }
  }

  // Walking up from an unrooted entry never stops.
  lemma {:induction false} UnrootedClimbs(entries: seq<Entry>, e: Entry, d: nat)
    requires !Rooted(entries, e)
    ensures Ancestor(entries, e, d).Some? && IsChild(entries, Ancestor(entries, e, d).value)
    decreases d
  {
    if d == 0 {
      assert Ancestor(entries, e, 0) == Some(e);
    } else {
      UnrootedClimbs(entries, e, d - 1);
      AncestorAdds(entries, e, d - 1, 1);
      var up := Ancestor(entries, e, d - 1).value;
      assert Ancestor(entries, CommentOf(entries, up.parent.value), 0).Some?;
      assert Ancestor(entries, up, 1).Some?;
      assert Ancestor(entries, e, d - 1 + 1) == Ancestor(entries, up, 1);
    }
  }

  // The ids met on the first n steps up.
  ghost function Climb(entries: seq<Entry>, e: Entry, n: nat): (r: seq<string>)
    requires !Rooted(entries, e)
    ensures |r| == n
  {
    if n == 0 then []
    else
      UnrootedClimbs(entries, e, n - 1);
      Climb(entries, e, n - 1) + [Ancestor(entries, e, n - 1).value.id]
  }

  lemma {:induction false} ClimbAt(entries: seq<Entry>, e: Entry, n: nat, i: nat)
    requires !Rooted(entries, e) && i < n
    ensures Ancestor(entries, e, i).Some? && Climb(entries, e, n)[i] == Ancestor(entries, e, i).value.id
  {
    UnrootedClimbs(entries, e, i);
    if i < n - 1 {
      ClimbAt(entries, e, n - 1, i);
    }
  }

  /** Every thread has a row exactly when no comment is its own ancestor. */
  lemma RootedWithoutCycles(entries: seq<Entry>)
    requires UniqueIds(entries)
    ensures (forall e | e in entries :: Rooted(entries, e)) <==> (forall e | e in entries :: !OnCycle(entries, e))
  {
    forall e | e in entries && !Rooted(entries, e) ensures exists c :: c in entries && OnCycle(entries, c) {
      var c := UnrootedReachesCycle(entries, e);
    }
    forall e | e in entries && OnCycle(entries, e) ensures !Rooted(entries, e) {
      if Rooted(entries, e) {
        var d: nat, top: Entry :| Ancestor(entries, e, d) == Some(top) && !IsChild(entries, top);
        CycleNeverStops(entries, e, d);
      }
    }
  }

  lemma UnrootedReachesCycle(entries: seq<Entry>, e: Entry) returns (c: Entry)
    requires UniqueIds(entries) && e in entries && !Rooted(entries, e)
    ensures c in entries && OnCycle(entries, c)
  {
    var n := |entries| + 1;
    var q := Climb(entries, e, n);
    forall x | x in q ensures x in CommentIds(entries) {
      var i :| 0 <= i < n && q[i] == x;
      ClimbAt(entries, e, n, i);
      AncestorLoaded(entries, e, i);
      UnrootedClimbs(entries, e, i);
    }
    if NoDup(q) {
      NoDupFits(q, CommentIds(entries));
      FewIds(entries);
    }
    var i, j := Repetition(q);
    ClimbAt(entries, e, n, i);
    ClimbAt(entries, e, n, j);
    AncestorLoaded(entries, e, i);
    AncestorLoaded(entries, e, j);
    UnrootedClimbs(entries, e, i);
    c := Ancestor(entries, e, i).value;
    SameComment(entries, c, Ancestor(entries, e, j).value);
    AncestorAdds(entries, e, i, j - i);
    assert Ancestor(entries, c, j - i) == Some(c);
  }

  lemma {:induction false} CycleNeverStops(entries: seq<Entry>, e: Entry, d: nat)
    requires OnCycle(entries, e)
    ensures Ancestor(entries, e, d).Some? && IsChild(entries, Ancestor(entries, e, d).value)
    decreases d
  {
    var k: nat :| 1 <= k && Ancestor(entries, e, k) == Some(e);
    if d >= k {
      CycleNeverStops(entries, e, d - k);
      AncestorAdds(entries, e, k, d - k);
    } else {
      PrefixExists(entries, e, d, k);
    }
  }

  lemma {:induction false} PrefixExists(entries: seq<Entry>, e: Entry, d: nat, k: nat)
    requires d < k && Ancestor(entries, e, k).Some?
    ensures Ancestor(entries, e, d).Some? && IsChild(entries, Ancestor(entries, e, d).value)
    decreases d
  {
    if d > 0 {
      PrefixExists(entries, CommentOf(entries, e.parent.value), d - 1, k - 1);
    }
  }

  function Replies(rows: seq<Row>): seq<Entry> {
    if rows == [] then [] else Replies(rows[..|rows| - 1]) + rows[|rows| - 1].replies
  }

  // All entries the rows show: row entries in order, and all replies.
  function Shown(rows: seq<Row>): multiset<Entry> {
    if rows == [] then multiset{}
    else Shown(rows[..|rows| - 1]) + multiset{rows[|rows| - 1].entry} + multiset(rows[|rows| - 1].replies)
  }

  // The roots of one entry coincide.
  lemma {:induction false} RootUnique(entries: seq<Entry>, e: Entry, c: nat, d: nat, a: Entry, b: Entry)
    requires Ancestor(entries, e, c) == Some(a) && Ancestor(entries, e, d) == Some(b)
    requires !IsChild(entries, a) && !IsChild(entries, b)
    ensures a == b
    decreases c
  {
    if c > 0 && d > 0 {
      RootUnique(entries, CommentOf(entries, e.parent.value), c - 1, d - 1, a, b);
    }
  }

  // A list of distinct comments holds each of its members once.
  lemma {:induction false} NoDupCounts(q: seq<Entry>, e: Entry)
    requires NoDup(Ids(q))
    ensures multiset(q)[e] == if e in q then 1 else 0
  {
    if q != [] {
      var init, last := q[..|q| - 1], q[|q| - 1];
      InitLast(q);
      assert Ids(q)[..|q| - 1] == Ids(init);
      NoDupCounts(init, e);
      IdsMembers(init, last.id);
    }
  }

  // How often an entry stands at the top level among the first n.
  lemma {:induction false} FilterCounts(p: Entry -> bool, q: seq<Entry>, e: Entry)
    ensures multiset(Filter(p, q))[e] == if p(e) then multiset(q)[e] else 0
  {
    if q != [] {
      InitLast(q);
      FilterCounts(p, q[..|q| - 1], e);
    }
  }

  lemma {:induction false} CommentCounts(entries: seq<Entry>, e: Entry)
    requires UniqueIds(entries) && e in entries && e.isComment
    ensures multiset(entries)[e] == 1
  {
    InitLast(entries);
    var init, last := entries[..|entries| - 1], entries[|entries| - 1];
    if e in init {
      CommentCounts(init, e);
      var i :| 0 <= i < |init| && init[i] == e;
      assert entries[i] == e && last != e;
    } else {
      assert multiset(init)[e] == 0;
    }
  }

  // The rows built so far show a top-level entry as often as it stands among their entries,
  // and a reply once if its root is one of them.
  ghost predicate ShowsPrefix(entries: seq<Entry>, rows: seq<Row>, tops: seq<Entry>, e: Entry) {
    if !IsChild(entries, e) then Shown(rows)[e] == multiset(tops)[e]
    else Shown(rows)[e] == (if HasRootIn(entries, tops, e) then 1 else 0)
  }

  lemma RowCount(entries: seq<Entry>, row: Row, t: Entry, e: Entry)
    requires UniqueIds(entries) && RowOf(entries, row, t) && e in entries && !IsChild(entries, t)
    ensures multiset{row.entry}[e] + multiset(row.replies)[e]
         == if IsChild(entries, e) then (if t.isComment && Descends(entries, t, e) then 1 else 0) else (if e == t then 1 else 0)
  {
    if t.isComment {
      ThreadIsDescendants(entries, t, row.replies, e);
      NoDupCounts(row.replies, e);
      if Descends(entries, t, e) {
        var d: nat :| ReplyAt(entries, t, e, d);
        assert IsChild(entries, e);
      }
    }
  }

  // Top-level entries among which no comment stands twice.
  ghost predicate Tops(entries: seq<Entry>, tops: seq<Entry>) {
    && (forall t | t in tops :: !IsChild(entries, t))
    && (forall i, j :: 0 <= i < j < |tops| && tops[i].isComment && tops[j].isComment ==> tops[i] != tops[j])
  }

  lemma RowsInit(entries: seq<Entry>, rows: seq<Row>, tops: seq<Entry>)
    requires RowsOf(entries, rows, tops) && Tops(entries, tops) && rows != []
    ensures RowsOf(entries, rows[..|rows| - 1], tops[..|rows| - 1]) && Tops(entries, tops[..|rows| - 1])
    ensures RowOf(entries, rows[|rows| - 1], tops[|rows| - 1]) && !IsChild(entries, tops[|rows| - 1])
  {
    assert tops[|rows| - 1] in tops;
    assert forall t | t in tops[..|rows| - 1] :: t in tops;
  }

  lemma {:induction false} ShownCounts(entries: seq<Entry>, rows: seq<Row>, tops: seq<Entry>, e: Entry)
    requires UniqueIds(entries) && RowsOf(entries, rows, tops) && e in entries && Tops(entries, tops)
    ensures ShowsPrefix(entries, rows, tops, e)
  {
    if rows != [] {
      var n := |rows| - 1;
      RowsInit(entries, rows, tops);
      ShownCounts(entries, rows[..n], tops[..n], e);
      RowCount(entries, rows[n], tops[n], e);
      ShowsOneMore(entries, tops, e);
      InitLast(tops);
    }
  }

  ghost predicate HasRootIn(entries: seq<Entry>, tops: seq<Entry>, e: Entry) {
    exists t :: t in tops && t.isComment && Descends(entries, t, e)
  }

  lemma ShowsOneMore(entries: seq<Entry>, tops: seq<Entry>, e: Entry)
    requires tops != [] && Tops(entries, tops)
    ensures var n := |tops| - 1;
            var last := tops[n].isComment && Descends(entries, tops[n], e);
            && (HasRootIn(entries, tops, e) <==> HasRootIn(entries, tops[..n], e) || last)
            && !(HasRootIn(entries, tops[..n], e) && last)
  {
    var n := |tops| - 1;
    InitLast(tops);
    if tops[n].isComment && Descends(entries, tops[n], e) {
      forall i | 0 <= i < n ensures tops[..n][i] != tops[n] {
      }
      OnlyRoot(entries, tops[..n], tops[n], e);
    }
  }

  // A descendant of the last top-level comment descends from none of the earlier ones.
  lemma OnlyRoot(entries: seq<Entry>, tops: seq<Entry>, t: Entry, e: Entry)
    requires Descends(entries, t, e) && !IsChild(entries, t) && t !in tops
    requires forall u | u in tops :: !IsChild(entries, u)
    ensures !HasRootIn(entries, tops, e)
  {
    var d: nat :| ReplyAt(entries, t, e, d);
    forall u | u in tops && Descends(entries, u, e) ensures false {
      var c: nat :| ReplyAt(entries, u, e, c);
      RootUnique(entries, e, c, d, u, t);
    }
  }

  lemma TopLevelFacts(entries: seq<Entry>)
    requires UniqueIds(entries)
    ensures forall t :: t in TopLevel(entries) <==> t in entries && !IsChild(entries, t)
    ensures var tops := TopLevel(entries);
            forall i, j :: 0 <= i < j < |tops| && tops[i].isComment && tops[j].isComment ==> tops[i] != tops[j]
  {
    var tops := TopLevel(entries);
    FilterMembers(IsTop(entries), entries);
    forall i, j | 0 <= i < j < |tops| && tops[i].isComment && tops[j].isComment ensures tops[i] != tops[j] {
      if tops[i] == tops[j] {
        TwiceCounts(tops, i, j);
        FilterCounts(IsTop(entries), entries, tops[i]);
        CommentCounts(entries, tops[i]);
      }
    }
  }

  lemma TwiceCounts(q: seq<Entry>, i: nat, j: nat)
    requires i < j < |q| && q[i] == q[j]
    ensures multiset(q)[q[i]] >= 2
  {
    assert q == q[..i] + [q[i]] + q[i + 1..j] + [q[j]] + q[j + 1..];
  }

  lemma RootedChildHasRoot(entries: seq<Entry>, e: Entry)
    requires UniqueIds(entries) && e in entries && IsChild(entries, e)
    ensures Rooted(entries, e) <==> HasRootIn(entries, TopLevel(entries), e)
  {
    TopLevelFacts(entries);
    if Rooted(entries, e) {
      var d: nat, top: Entry :| Ancestor(entries, e, d) == Some(top) && !IsChild(entries, top);
      assert d > 0;
      AncestorLoaded(entries, e, d);
      assert ReplyAt(entries, top, e, d);
    }
    if HasRootIn(entries, TopLevel(entries), e) {
      var t :| t in TopLevel(entries) && t.isComment && Descends(entries, t, e);
      var d: nat :| ReplyAt(entries, t, e, d);
      assert Ancestor(entries, e, d) == Some(t) && !IsChild(entries, t);
    }
  }

  /** The rows show every loaded entry once, save exactly those whose parent chain never ends. */
  lemma EachShownOnce(entries: seq<Entry>, rows: seq<Row>, e: Entry)
    requires UniqueIds(entries) && RowsOf(entries, rows, TopLevel(entries)) && e in entries
    ensures Shown(rows)[e] == if Rooted(entries, e) then multiset(entries)[e] else 0
  {
    TopLevelFacts(entries);
    ShownCounts(entries, rows, TopLevel(entries), e);
    if IsChild(entries, e) {
      RootedChildHasRoot(entries, e);
      CommentCounts(entries, e);
    } else {
      assert Ancestor(entries, e, 0) == Some(e);
      FilterCounts(IsTop(entries), entries, e);
    }
  }

  lemma {:induction false} ShownAreLoaded(entries: seq<Entry>, rows: seq<Row>, tops: seq<Entry>, e: Entry)
    requires UniqueIds(entries) && RowsOf(entries, rows, tops) && forall t | t in tops :: t in entries
    requires e in Shown(rows)
    ensures e in entries
  {
    var n := |rows| - 1;
    InitLast(tops);
    assert RowOf(entries, rows[n], tops[n]);
    if e in Shown(rows[..n]) {
      ShownAreLoaded(entries, rows[..n], tops[..n], e);
    } else if e in rows[n].replies {
      ThreadIsDescendants(entries, tops[n], rows[n].replies, e);
    }
  }

  /** Nothing vanishes and nothing repeats exactly when no comment is its own ancestor. */
  lemma NothingLostWithoutCycles(entries: seq<Entry>, rows: seq<Row>)
    requires UniqueIds(entries) && RowsOf(entries, rows, TopLevel(entries))
    ensures Shown(rows) == multiset(entries) <==> forall e | e in entries :: !OnCycle(entries, e)
  {
    TopLevelFacts(entries);
    RootedWithoutCycles(entries);
    forall e ensures Shown(rows)[e] == if e in entries && Rooted(entries, e) then multiset(entries)[e] else 0 {
      if e in entries {
        EachShownOnce(entries, rows, e);
      } else if e in Shown(rows) {
        ShownAreLoaded(entries, rows, TopLevel(entries), e);
      }
    }
    if Shown(rows) == multiset(entries) {
      forall e | e in entries ensures Rooted(entries, e) {
        assert multiset(entries)[e] > 0;
      }
    }
  }
}
