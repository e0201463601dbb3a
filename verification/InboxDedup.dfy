/** Inbox deduplication: one row for each issue, the newest, with the newest comment to jump to. */
module InboxDedup {
  import opened Wrappers
  import opened Sequences
  import opened Sorting

  datatype Details = Details(comment_id: Option<string>, rest: string)

  // `at` is the parsed creation time.
  datatype Item = Item(id: string, issue_id: Option<string>, archived: bool, at: int, details: Option<Details>)

  function Key(i: Item): string {
    i.issue_id.GetOr(i.id)
  }

  function NewestFirst(a: Item, b: Item): int {
    b.at - a.at
  }

  function CommentOf(i: Item): Option<string> {
    if i.details.Some? then i.details.value.comment_id else None
  }

  predicate HasComment(i: Item) {
    CommentOf(i).Some? && CommentOf(i).value != ""
  }

  function Active(items: seq<Item>): seq<Item> {
    if items == [] then []
    else Active(items[..|items| - 1]) + if items[|items| - 1].archived then [] else [items[|items| - 1]]
  }

  // ---- Grouping ----

  function KeysOf(items: seq<Item>): seq<string> {
    if items == [] then []
    else
      var keys, key := KeysOf(items[..|items| - 1]), Key(items[|items| - 1]);
      if key in keys then keys else keys + [key]
  }

  function GroupOf(items: seq<Item>, key: string): seq<Item> {
    if items == [] then []
    else GroupOf(items[..|items| - 1], key) + if Key(items[|items| - 1]) == key then [items[|items| - 1]] else []
  }

  // The groups of an insertion-ordered map: its keys in order, and their items.
  datatype Groups = Groups(keys: seq<string>, of: map<string, seq<Item>>)

  ghost predicate GroupsAre(g: Groups, items: seq<Item>) {
    && g.keys == KeysOf(items) && g.of.Keys == Elements(g.keys)
    && forall k | k in g.of :: g.of[k] == GroupOf(items, k)
  }

  lemma {:induction false} KeysHave(items: seq<Item>)
    ensures NoDup(KeysOf(items))
    ensures forall k :: k in KeysOf(items) <==> GroupOf(items, k) != []
    ensures forall i | i in items :: Key(i) in KeysOf(items)
  {
    if items != [] {
      InitLast(items);
      KeysHave(items[..|items| - 1]);
      NoDupOne(KeysOf(items[..|items| - 1]), Key(items[|items| - 1]));
    }
  }

  lemma {:induction false} GroupHas(items: seq<Item>, key: string, i: Item)
    ensures i in GroupOf(items, key) <==> i in items && Key(i) == key
  {
    if items != [] {
      InitLast(items);
      GroupHas(items[..|items| - 1], key, i);
    }
  }

  function AddTo(g: Groups, item: Item): Groups {
    var key := Key(item);
    Groups(if key in g.of then g.keys else g.keys + [key], g.of[key := (if key in g.of then g.of[key] else []) + [item]])
  }

  lemma GroupAppend(items: seq<Item>, item: Item, key: string)
    ensures GroupOf(items + [item], key) == GroupOf(items, key) + if Key(item) == key then [item] else []
    ensures KeysOf(items + [item]) == KeysOf(items) + if Key(item) in KeysOf(items) then [] else [Key(item)]
  {
    assert (items + [item])[..|items|] == items;
  }

  lemma AddToGroups(items: seq<Item>, item: Item, g: Groups)
    requires GroupsAre(g, items)
    ensures GroupsAre(AddTo(g, item), items + [item])
  {
    var more := AddTo(g, item);
    GroupAppend(items, item, Key(item));
    assert more.of.Keys == g.of.Keys + {Key(item)};
    forall k | k in more.of ensures more.of[k] == GroupOf(items + [item], k) {
      GroupAppend(items, item, k);
      if k !in g.of {
        assert GroupOf(items, k) == [] by {
          KeysHave(items);
        }
      }
    }
  }

  method GroupItems(items: seq<Item>) returns (g: Groups)
    ensures GroupsAre(g, items)
  {
    g := Groups([], map[]);
    for i := 0 to |items|
      invariant GroupsAre(g, items[..i])
    {
      assert items[..i + 1] == items[..i] + [items[i]];
      AddToGroups(items[..i], items[i], g);
      var key := Key(items[i]);
      var group := if key in g.of then g.of[key] else [];
      g := Groups(if key in g.of then g.keys else g.keys + [key], g.of[key := group + [items[i]]]);
    }
    assert items[..|items|] == items;
  }

  // ---- One row for a group ----

  function FirstComment(group: seq<Item>): Option<string> {
    if group == [] then None else if HasComment(group[0]) then CommentOf(group[0]) else FirstComment(group[1..])
  }

  function WithComment(i: Item, comment: string): Item {
    i.(details := Some(Details(Some(comment), if i.details.Some? then i.details.value.rest else "")))
  }

  // The row for a group sorted newest first.
  function RowOf(sorted: seq<Item>): Item
    requires sorted != []
  {
    var newest := sorted[0];
    var comment := if CommentOf(newest).Some? then CommentOf(newest) else FirstComment(sorted);
    if comment.Some? && comment.value != "" && CommentOf(newest) != comment then WithComment(newest, comment.value) else newest
  }

  function MergedRow(items: seq<Item>, key: string): Item
    requires GroupOf(items, key) != []
  {
    RowOf(Sort(NewestFirst, GroupOf(items, key)))
  }

  function Merged(items: seq<Item>, keys: seq<string>): seq<Item>
    requires forall k | k in keys :: GroupOf(items, k) != []
  {
    if keys == [] then [] else Merged(items, keys[..|keys| - 1]) + [MergedRow(items, keys[|keys| - 1])]
  }

  function Deduplicated(items: seq<Item>): seq<Item> {
    KeysHave(Active(items));
    Sort(NewestFirst, Merged(Active(items), KeysOf(Active(items))))
  }

  method MergeGroup(group: seq<Item>) returns (row: Item)
    requires group != []
    ensures row == RowOf(Sort(NewestFirst, group))
  {
    var sorted := Sort(NewestFirst, group);
    var newest := sorted[0];
    var comment := CommentOf(newest);
    if comment == None {
      var j := 0;
      while j < |sorted| && !HasComment(sorted[j])
        invariant j <= |sorted| && FirstComment(sorted) == FirstComment(sorted[j..])
      {
        assert sorted[j..][1..] == sorted[j + 1..];
        j := j + 1;
      }
      if j < |sorted| {
        comment := CommentOf(sorted[j]);
      }
    }
    if comment.Some? && comment.value != "" && CommentOf(newest) != comment {
      return WithComment(newest, comment.value);
    }
    row := newest;
  }

  lemma MergedNext(items: seq<Item>, keys: seq<string>, i: nat)
    requires i < |keys| && forall k | k in keys :: GroupOf(items, k) != []
    ensures keys[i] in keys && (forall k | k in keys[..i] :: k in keys) && (forall k | k in keys[..i + 1] :: k in keys)
    ensures Merged(items, keys[..i + 1]) == Merged(items, keys[..i]) + [MergedRow(items, keys[i])]
  {
    assert keys[..i + 1][..i] == keys[..i];
  }

  method MergeGroups(g: Groups, ghost items: seq<Item>) returns (merged: seq<Item>)
    requires GroupsAre(g, items) && forall k | k in g.keys :: GroupOf(items, k) != []
    ensures merged == Merged(items, g.keys)
  {
    merged := [];
    for i := 0 to |g.keys|
      invariant forall k | k in g.keys[..i] :: k in g.keys
      invariant merged == Merged(items, g.keys[..i])
    {
      MergedNext(items, g.keys, i);
      var row := MergeGroup(g.of[g.keys[i]]);
      merged := merged + [row];
    }
    assert g.keys[..|g.keys|] == g.keys;
  }

  method DeduplicateInboxItems(items: seq<Item>) returns (rows: seq<Item>)
    ensures rows == Deduplicated(items)
  {
    var active := Active(items);
    var g := GroupItems(active);
    KeysHave(active);
    var merged := MergeGroups(g, active);
    rows := Sort(NewestFirst, merged);
  }

  // ---- What the rows are ----

  lemma TimeIsPreorder(q: multiset<Item>)
    ensures PreorderOn(NewestFirst, q)
  {
  }

  lemma {:induction false} ActiveHas(items: seq<Item>, i: Item)
    ensures i in Active(items) <==> i in items && !i.archived
  {
    if items != [] {
      InitLast(items);
      ActiveHas(items[..|items| - 1], i);
    }
  }

  // The newest comment any item of the group has, when one has one.
  ghost predicate NewestComment(comment: Option<string>, group: seq<Item>) {
    match comment
    case None => forall i | i in group :: !HasComment(i)
    case Some(_) => exists i :: i in group && HasComment(i) && CommentOf(i) == comment
                                && forall j | j in group && HasComment(j) :: j.at <= i.at
  }

  lemma {:induction false} FirstCommentIsNewest(sorted: seq<Item>)
    requires Ordered(NewestFirst, sorted)
    ensures NewestComment(FirstComment(sorted), sorted)
  {
    if sorted != [] {
      HeadTail(sorted);
      if HasComment(sorted[0]) {
        assert sorted[0] in sorted;
      } else {
        FirstCommentIsNewest(sorted[1..]);
      }
    }
  }

  // The row shows this item; without a comment of its own it takes over the group's newest.
  ghost predicate Shows(row: Item, newest: Item, group: seq<Item>) {
    && (CommentOf(newest).Some? ==> row == newest)
    && (CommentOf(newest) == None ==>
          && NewestComment(CommentOf(row), group)
          && row == if CommentOf(row).Some? then WithComment(newest, CommentOf(row).value) else newest)
  }

  predicate IsNewest(newest: Item, group: seq<Item>) {
    newest in group && forall i | i in group :: i.at <= newest.at
  }

  ghost predicate Represents(row: Item, group: seq<Item>) {
    exists newest :: IsNewest(newest, group) && Shows(row, newest, group)
  }

  lemma SameNewestComment(comment: Option<string>, a: seq<Item>, b: seq<Item>)
    requires NewestComment(comment, a) && forall x :: x in a <==> x in b
    ensures NewestComment(comment, b)
  {
  }

  lemma {:induction false} FirstCommentIsNamed(group: seq<Item>)
    ensures FirstComment(group).Some? ==> FirstComment(group).value != ""
  {
    if group != [] && !HasComment(group[0]) {
      FirstCommentIsNamed(group[1..]);
    }
  }

  lemma RowShowsFirst(sorted: seq<Item>, group: seq<Item>)
    requires sorted != [] && NewestComment(FirstComment(sorted), group)
    ensures Shows(RowOf(sorted), sorted[0], group)
  {
    FirstCommentIsNamed(sorted);
  }

  lemma RowRepresents(group: seq<Item>)
    requires group != []
    ensures Represents(RowOf(Sort(NewestFirst, group)), group)
  {
    var sorted := Sort(NewestFirst, group);
    TimeIsPreorder(multiset(group));
    SortOrdered(NewestFirst, group);
    forall x ensures x in sorted <==> x in group {
      SortHas(NewestFirst, group, x);
    }
    FirstCommentIsNewest(sorted);
    SameNewestComment(FirstComment(sorted), sorted, group);
    RowShowsFirst(sorted, group);
    assert IsNewest(sorted[0], group) by {
      HeadTail(sorted);
    }
  }

  lemma RowKeepsKey(row: Item, group: seq<Item>, key: string)
    requires Represents(row, group) && forall i | i in group :: Key(i) == key && !i.archived
    ensures Key(row) == key && !row.archived
    ensures exists i :: i in group && i.at == row.at
  {
  }

  lemma MergedRowOk(items: seq<Item>, key: string)
    requires GroupOf(items, key) != []
    ensures Represents(MergedRow(items, key), GroupOf(items, key))
    ensures Key(MergedRow(items, key)) == key
    ensures exists i :: i in items && Key(i) == key && i.at == MergedRow(items, key).at && i.archived == MergedRow(items, key).archived
  {
    var group := GroupOf(items, key);
    RowRepresents(group);
    forall i | i in group ensures Key(i) == key && i in items {
      GroupHas(items, key, i);
    }
  }

  lemma {:induction false} MergedAt(items: seq<Item>, keys: seq<string>, row: Item)
    requires forall k | k in keys :: GroupOf(items, k) != []
    ensures row in Merged(items, keys) <==> Key(row) in keys && row == MergedRow(items, Key(row))
  {
    if keys != [] {
      InitLast(keys);
      MergedAt(items, keys[..|keys| - 1], row);
      MergedRowOk(items, keys[|keys| - 1]);
    }
  }

  lemma {:induction false} MergedKeys(items: seq<Item>, keys: seq<string>)
    requires forall k | k in keys :: GroupOf(items, k) != []
    ensures Map(Key, Merged(items, keys)) == keys
  {
    if keys != [] {
      InitLast(keys);
      MergedKeys(items, keys[..|keys| - 1]);
      MergedRowOk(items, keys[|keys| - 1]);
    }
  }

  /** Every row stands for the whole group of its key among the unarchived items. */
  lemma RowsRepresentGroups(items: seq<Item>, row: Item)
    requires row in Deduplicated(items)
    ensures Represents(row, GroupOf(Active(items), Key(row)))
  {
    var active := Active(items);
    KeysHave(active);
    SortHas(NewestFirst, Merged(active, KeysOf(active)), row);
    MergedAt(active, KeysOf(active), row);
    MergedRowOk(active, Key(row));
  }

  /** The rows' keys are those of the unarchived items, each once, and the rows are sorted newest first. */
  lemma OneRowPerIssue(items: seq<Item>)
    ensures NoDup(Map(Key, Deduplicated(items)))
    ensures forall k :: k in Map(Key, Deduplicated(items)) <==> exists i :: i in items && !i.archived && Key(i) == k
    ensures Ordered(NewestFirst, Deduplicated(items))
  {
    var active := Active(items);
    KeysHave(active);
    var merged := Merged(active, KeysOf(active));
    MergedKeys(active, KeysOf(active));
    TimeIsPreorder(multiset(merged));
    SortOrdered(NewestFirst, merged);
    SortedKeys(merged);
    forall k ensures k in KeysOf(active) <==> exists i :: i in items && !i.archived && Key(i) == k {
      KeyFromItem(items, k);
    }
  }

  lemma KeyFromItem(items: seq<Item>, k: string)
    ensures k in KeysOf(Active(items)) <==> exists i :: i in items && !i.archived && Key(i) == k
  {
    var active := Active(items);
    KeysHave(active);
    if GroupOf(active, k) != [] {
      var i := GroupOf(active, k)[0];
      GroupHas(active, k, i);
      ActiveHas(items, i);
    }
    if i :| i in items && !i.archived && Key(i) == k {
      ActiveHas(items, i);
    }
  }

  lemma SortedKeys(q: seq<Item>)
    ensures NoDup(Map(Key, Sort(NewestFirst, q))) <==> NoDup(Map(Key, q))
    ensures forall k :: k in Map(Key, Sort(NewestFirst, q)) <==> k in Map(Key, q)
  {
    SortMembers(NewestFirst, q);
    MapBag(Key, Sort(NewestFirst, q), q);
    SameBagNoDup(Map(Key, Sort(NewestFirst, q)), Map(Key, q));
  }

  lemma {:induction false} MapBag<T, U>(f: T -> U, a: seq<T>, b: seq<T>)
    requires multiset(a) == multiset(b)
    ensures multiset(Map(f, a)) == multiset(Map(f, b))
  {
    assert Map((x: T) => x, a) == a && Map((x: T) => x, b) == b;
    BagsMatch((x: T) => x, f, a, b);
  }

  lemma SameBagNoDup<T>(a: seq<T>, b: seq<T>)
    requires multiset(a) == multiset(b)
    ensures NoDup(a) <==> NoDup(b)
    ensures forall x :: x in a <==> x in b
  {
    assert forall x :: x in a <==> x in multiset(a);
    assert forall x :: x in b <==> x in multiset(b);
    if NoDup(a) {
      forall x | x in b ensures multiset(b)[x] == 1 {
        MultiplicityOfNoDup(a, x);
      }
      SingleMultiplicities(b);
    }
    if NoDup(b) {
      forall x | x in a ensures multiset(a)[x] == 1 {
        MultiplicityOfNoDup(b, x);
      }
      SingleMultiplicities(a);
    }
  }

  // The group's newest item, with no other as new.
  ghost predicate NewestAlone(newest: Item, group: seq<Item>) {
    newest in group && forall j | j in group :: j == newest || j.at < newest.at
  }

  /**
   A row leads to a comment, as long as its group has one, exactly when the newest
   item's own comment is not the empty string, which counts as present.
   */
  lemma CommentReachedExactly(items: seq<Item>, row: Item, newest: Item, i: Item)
    requires row in Deduplicated(items)
    requires NewestAlone(newest, GroupOf(Active(items), Key(row)))
    requires i in items && !i.archived && Key(i) == Key(row) && HasComment(i)
    ensures HasComment(row) <==> CommentOf(newest) != Some("")
  {
    var group := GroupOf(Active(items), Key(row));
    RowsRepresentGroups(items, row);
    var first :| IsNewest(first, group) && Shows(row, first, group);
    assert first == newest;
    ActiveHas(items, i);
    GroupHas(Active(items), Key(row), i);
  }

  /** An empty comment of the newest item hides its group's comment. */
  lemma EmptyCommentHides(older: Item, newer: Item, row: Item)
    requires !older.archived && !newer.archived && Key(older) == Key(newer) && older.at < newer.at
    requires HasComment(older) && CommentOf(newer) == Some("")
    requires row in Deduplicated([older, newer])
    ensures row == newer && !HasComment(row)
  {
    var items := [older, newer];
    RowsRepresentGroups(items, row);
    var group := GroupOf(Active(items), Key(row));
    var first :| IsNewest(first, group) && Shows(row, first, group);
    forall x ensures x in group <==> x in items && Key(x) == Key(row) {
      ActiveHas(items, x);
      GroupHas(Active(items), Key(row), x);
    }
    assert older in items && newer in items;
    assert first in items;
  }

  // ---- Again, and in another order ----

  lemma {:induction false} SortedStays(q: seq<Item>)
    requires Ordered(NewestFirst, q)
    ensures Sort(NewestFirst, q) == q
  {
    if q != [] {
      var init, last := q[..|q| - 1], q[|q| - 1];
      OrderedInit(q);
      SortedStays(init);
      InsertAtEnd(init, last);
      assert q == init + [last];
    }
  }

  predicate NoneOlder(q: seq<Item>, t: Item) {
    forall x | x in q :: t.at <= x.at
  }

  lemma {:induction false} OrderedInit(q: seq<Item>)
    requires Ordered(NewestFirst, q) && q != []
    ensures Ordered(NewestFirst, q[..|q| - 1])
    ensures NoneOlder(q[..|q| - 1], q[|q| - 1])
  {
    if |q| > 1 {
      OrderedInit(q[1..]);
      assert NewestFirst(q[0], q[1..][|q| - 2]) <= 0;
      assert q[1..][..|q| - 2] == q[..|q| - 1][1..];
      HeadTail(q[..|q| - 1]);
      HeadTail(q);
      InitLast(q[1..]);
    }
  }

  lemma {:induction false} InsertAtEnd(q: seq<Item>, t: Item)
    requires NoneOlder(q, t)
    ensures Insert(NewestFirst, t, q) == q + [t]
  {
    if q != [] {
      HeadTail(q);
      assert q[0] in q;
      InsertAtEnd(q[1..], t);
      assert q + [t] == [q[0]] + (q[1..] + [t]);
    }
  }

  lemma {:induction false} AloneInGroup(q: seq<Item>, i: Item)
    requires NoDup(Map(Key, q)) && i in q
    ensures GroupOf(q, Key(i)) == [i]
  {
    var init, last := q[..|q| - 1], q[|q| - 1];
    assert Map(Key, q) == Map(Key, init) + [Key(last)];
    NoDupOne(Map(Key, init), Key(last));
    InitLast(q);
    if i in init {
      AloneInGroup(init, i);
      var j :| 0 <= j < |init| && init[j] == i;
      assert Map(Key, init)[j] == Key(i);
    } else {
      EmptyGroup(init, Key(last));
    }
  }

  lemma {:induction false} EmptyGroup(q: seq<Item>, key: string)
    requires key !in Map(Key, q)
    ensures GroupOf(q, key) == []
  {
    if q != [] {
      assert Map(Key, q) == Map(Key, q[..|q| - 1]) + [Key(q[|q| - 1])];
      EmptyGroup(q[..|q| - 1], key);
    }
  }

  lemma RowOfOne(i: Item)
    ensures RowOf(Sort(NewestFirst, [i])) == i
  {
    assert [i][..0] == [];
    assert Insert(NewestFirst, i, []) == [i];
    assert Sort(NewestFirst, [i]) == [i];
    assert [i][1..] == [];
    assert FirstComment([i][1..]) == None;
  }

  lemma {:induction false} MergedAlone(q: seq<Item>, part: seq<Item>)
    requires NoDup(Map(Key, q)) && forall i | i in part :: i in q
    ensures forall k | k in Map(Key, part) :: GroupOf(q, k) != []
    ensures Merged(q, Map(Key, part)) == part
  {
    if part != [] {
      var init, last := part[..|part| - 1], part[|part| - 1];
      InitLast(part);
      MergedAlone(q, init);
      assert Map(Key, part) == Map(Key, init) + [Key(last)];
      AloneInGroup(q, last);
      RowOfOne(last);
      assert part == init + [last];
      assert Map(Key, part)[..|init|] == Map(Key, init);
    }
  }

  lemma {:induction false} KeysInOrder(q: seq<Item>)
    requires NoDup(Map(Key, q))
    ensures KeysOf(q) == Map(Key, q)
  {
    if q != [] {
      assert Map(Key, q) == Map(Key, q[..|q| - 1]) + [Key(q[|q| - 1])];
      NoDupOne(Map(Key, q[..|q| - 1]), Key(q[|q| - 1]));
      KeysInOrder(q[..|q| - 1]);
    }
  }

  lemma {:induction false} AllActive(q: seq<Item>)
    requires forall i | i in q :: !i.archived
    ensures Active(q) == q
  {
    if q != [] {
      InitLast(q);
      AllActive(q[..|q| - 1]);
    }
  }

  lemma RowsAreActive(items: seq<Item>)
    ensures forall row | row in Deduplicated(items) :: !row.archived
  {
    forall row | row in Deduplicated(items) ensures !row.archived {
      RowsRepresentGroups(items, row);
      var group := GroupOf(Active(items), Key(row));
      forall i | i in group ensures Key(i) == Key(row) && !i.archived {
        GroupHas(Active(items), Key(row), i);
        ActiveHas(items, i);
      }
      RowKeepsKey(row, group, Key(row));
    }
  }

  /** Deduplicating the result again changes nothing. */
  lemma DeduplicationIsStable(items: seq<Item>)
    ensures Deduplicated(Deduplicated(items)) == Deduplicated(items)
  {
    var rows := Deduplicated(items);
    OneRowPerIssue(items);
    RowsAreActive(items);
    AllActive(rows);
    KeysInOrder(rows);
    MergedAlone(rows, rows);
    SortedStays(rows);
  }

  ghost predicate DistinctTimes(q: seq<Item>) {
    forall a, b | a in q && b in q && a.at == b.at :: a == b
  }

  lemma {:induction false} ActiveBag(items: seq<Item>, i: Item)
    ensures multiset(Active(items))[i] == if i.archived then 0 else multiset(items)[i]
  {
    if items != [] {
      InitLast(items);
      ActiveBag(items[..|items| - 1], i);
    }
  }

  lemma {:induction false} GroupBag(items: seq<Item>, key: string, i: Item)
    ensures multiset(GroupOf(items, key))[i] == if Key(i) == key then multiset(items)[i] else 0
  {
    if items != [] {
      InitLast(items);
      GroupBag(items[..|items| - 1], key, i);
    }
  }

  lemma SortSame(a: seq<Item>, b: seq<Item>)
    requires multiset(a) == multiset(b) && DistinctTimes(a)
    ensures Sort(NewestFirst, a) == Sort(NewestFirst, b)
  {
    assert forall x :: x in multiset(a) <==> x in a;
    assert StrictOn(NewestFirst, multiset(a));
    SortOrdered(NewestFirst, a);
    SortOrdered(NewestFirst, b);
    SortMembers(NewestFirst, a);
    SortMembers(NewestFirst, b);
    OrderedUnique(NewestFirst, Sort(NewestFirst, a), Sort(NewestFirst, b));
  }

  lemma SameGroup(a: seq<Item>, b: seq<Item>, key: string)
    requires multiset(a) == multiset(b) && DistinctTimes(a)
    ensures GroupOf(a, key) == [] <==> GroupOf(b, key) == []
    ensures GroupOf(a, key) != [] ==> GroupOf(b, key) != [] && MergedRow(a, key) == MergedRow(b, key)
  {
    forall i ensures multiset(GroupOf(a, key))[i] == multiset(GroupOf(b, key))[i] {
      GroupBag(a, key, i);
      GroupBag(b, key, i);
    }
    assert multiset(GroupOf(a, key)) == multiset(GroupOf(b, key));
    assert |multiset(GroupOf(a, key))| == |GroupOf(a, key)| && |multiset(GroupOf(b, key))| == |GroupOf(b, key)|;
    forall i | i in GroupOf(a, key) ensures i in a {
      GroupHas(a, key, i);
    }
    SortSame(GroupOf(a, key), GroupOf(b, key));
  }

  lemma MergedTimes(q: seq<Item>)
    requires DistinctTimes(q)
    ensures forall k | k in KeysOf(q) :: GroupOf(q, k) != []
    ensures DistinctTimes(Merged(q, KeysOf(q)))
  {
    KeysHave(q);
    var merged := Merged(q, KeysOf(q));
    forall x, y | x in merged && y in merged && x.at == y.at ensures x == y {
      MergedAt(q, KeysOf(q), x);
      MergedAt(q, KeysOf(q), y);
      MergedRowOk(q, Key(x));
      MergedRowOk(q, Key(y));
    }
  }

  lemma MergedBag(a: seq<Item>, b: seq<Item>)
    requires multiset(a) == multiset(b) && DistinctTimes(a)
    ensures forall k | k in KeysOf(a) :: GroupOf(a, k) != []
    ensures forall k | k in KeysOf(b) :: GroupOf(b, k) != []
    ensures multiset(Merged(a, KeysOf(a))) == multiset(Merged(b, KeysOf(b)))
  {
    KeysHave(a);
    KeysHave(b);
    var x, y := Merged(a, KeysOf(a)), Merged(b, KeysOf(b));
    MergedKeys(a, KeysOf(a));
    MergedKeys(b, KeysOf(b));
    NoDupByMap(Key, x);
    NoDupByMap(Key, y);
    forall row ensures row in x <==> row in y {
      MergedAt(a, KeysOf(a), row);
      MergedAt(b, KeysOf(b), row);
      SameGroup(a, b, Key(row));
    }
    forall row ensures multiset(x)[row] == multiset(y)[row] {
      MultiplicityOfNoDup(x, row);
      MultiplicityOfNoDup(y, row);
    }
  }

  lemma {:induction false} NoDupByMap<T, U>(f: T -> U, q: seq<T>)
    requires NoDup(Map(f, q))
    ensures NoDup(q)
  {
    if q != [] {
      var init, last := q[..|q| - 1], q[|q| - 1];
      assert Map(f, q) == Map(f, init) + [f(last)];
      NoDupOne(Map(f, init), f(last));
      NoDupByMap(f, init);
      MapHas(f, init, last);
    }
  }

  lemma MapHas<T, U>(f: T -> U, q: seq<T>, x: T)
    ensures x in q ==> f(x) in Map(f, q)
  {
    if x in q {
      var j :| 0 <= j < |q| && q[j] == x;
      assert Map(f, q)[j] == f(x);
    }
  }

  /** When no two unarchived items share a time, the order of the input does not matter. */
  lemma OrderIrrelevant(a: seq<Item>, b: seq<Item>)
    requires multiset(a) == multiset(b) && DistinctTimes(Active(a))
    ensures Deduplicated(a) == Deduplicated(b)
  {
    forall i ensures multiset(Active(a))[i] == multiset(Active(b))[i] {
      ActiveBag(a, i);
      ActiveBag(b, i);
    }
    assert multiset(Active(a)) == multiset(Active(b));
    MergedBag(Active(a), Active(b));
    MergedTimes(Active(a));
    SortSame(Merged(Active(a), KeysOf(Active(a))), Merged(Active(b), KeysOf(Active(b))));
  }
}
