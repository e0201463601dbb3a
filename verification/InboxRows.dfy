/** The rows of the inbox in terms of its items: which item each row shows and whose comment it leads to. */
module InboxRows {
  import opened Wrappers
  import opened Sequences
  import opened Sorting
  import opened Stability
  import opened InboxDedup

  // They are about one issue; an item without an issue stands for the issue of its own id.
  ghost predicate OneIssue(a: Item, b: Item) {
    match (a.issue_id, b.issue_id)
    case (Some(x), Some(y)) => x == y
    case (Some(x), None) => x == b.id
    case (None, Some(y)) => a.id == y
    case (None, None) => a.id == b.id
  }

  ghost predicate Comments(i: Item) {
    i.details.Some? && i.details.value.comment_id.Some? && i.details.value.comment_id.value != ""
  }

  // Item k is the latest of its issue among unarchived ones, if wanted among those with a comment; of equally late ones the first.
  ghost predicate Latest(items: seq<Item>, k: nat, commented: bool) {
    && k < |items| && !items[k].archived && (commented ==> Comments(items[k]))
    && forall j :: 0 <= j < |items| && !items[j].archived && OneIssue(items[j], items[k]) && (commented ==> Comments(items[j])) ==>
         items[j].at < items[k].at || (items[j].at == items[k].at && k <= j)
  }

  lemma ActiveAppend(items: seq<Item>, item: Item)
    ensures Active(items + [item]) == if item.archived then Active(items) else Active(items) + [item]
  {
    assert (items + [item])[..|items|] == items;
  }

  lemma GroupOneMore(items: seq<Item>, item: Item, key: string)
    ensures GroupOf(Active(items + [item]), key)
         == GroupOf(Active(items), key) + if !item.archived && Key(item) == key then [item] else []
  {
    ActiveAppend(items, item);
    GroupAppend(Active(items), item, key);
  }

  ghost function InGroup(key: string): Item -> bool {
    (i: Item) => !i.archived && Key(i) == key
  }

  ghost predicate SameItem(a: Item, b: Item) {
    a == b
  }

  lemma OneItemMore(items: seq<Item>, g: seq<Item>, at: seq<nat>, key: string, item: Item) returns (more: seq<nat>)
    requires Read(items, g, at, InGroup(key), SameItem)
    ensures Read(items + [item], g + (if !item.archived && Key(item) == key then [item] else []), more, InGroup(key), SameItem)
  {
    ReadAppend(items, g, at, InGroup(key), SameItem, item, item);
    if InGroup(key)(item) {
      more := at + [|items|];
    } else {
      more := at;
      assert g + [] == g;
    }
  }

  lemma {:induction false} GroupInOrder(items: seq<Item>, key: string) returns (at: seq<nat>)
    ensures Read(items, GroupOf(Active(items), key), at, InGroup(key), SameItem)
  {
    at := [];
    if items != [] {
      var init, last := items[..|items| - 1], items[|items| - 1];
      at := GroupInOrder(init, key);
      LastApart(items);
      GroupOneMore(init, last, key);
      at := OneItemMore(init, GroupOf(Active(init), key), at, key, last);
    }
  }

  lemma GroupHolds(items: seq<Item>, g: seq<Item>, at: seq<nat>, key: string, j: nat) returns (m: nat)
    requires Read(items, g, at, InGroup(key), SameItem) && j < |items| && !items[j].archived && Key(items[j]) == key
    ensures m < |at| && at[m] == j && g[m] == items[j]
  {
    assert InGroup(key)(items[j]);
    m :| m < |at| && at[m] == j;
    assert SameItem(items[at[m]], g[m]);
  }

  lemma LeastIsLatest(items: seq<Item>, g: seq<Item>, at: seq<nat>, key: string, p: Item -> bool, i: nat, commented: bool)
    requires Read(items, g, at, InGroup(key), SameItem)
    requires LeastThat(NewestFirst, p, g, i) && forall x :: p(x) <==> (commented ==> Comments(x))
    ensures Latest(items, at[i], commented) && items[at[i]] == g[i] && Key(g[i]) == key
  {
    var k := at[i];
    assert SameItem(items[at[i]], g[i]) && k in at && InGroup(key)(items[k]);
    forall j | 0 <= j < |items| && !items[j].archived && OneIssue(items[j], items[k]) && (commented ==> Comments(items[j]))
      ensures items[j].at < items[k].at || (items[j].at == items[k].at && k <= j)
    {
      var m := GroupHolds(items, g, at, key, j);
      assert p(g[m]) && NewestFirst(g[i], g[m]) <= 0;
    }
  }

  lemma {:induction false} FirstCommentIsFirst(q: seq<Item>)
    ensures FirstComment(q) == match First(HasComment, q) case None => None case Some(i) => CommentOf(i)
  {
    if q != [] && !HasComment(q[0]) {
      FirstCommentIsFirst(q[1..]);
    }
  }

  // The row shows item k; without a comment of its own, with the comment of item c.
  ghost predicate RowShows(items: seq<Item>, row: Item, k: nat, c: nat) {
    && Latest(items, k, false)
    && row == items[k].(details := row.details)
    && if items[k].details.Some? && items[k].details.value.comment_id.Some? then row.details == items[k].details
       else if c < |items| then
         && Latest(items, c, true) && OneIssue(items[c], items[k])
         && row.details == Some(Details(items[c].details.value.comment_id,
                                        if items[k].details.Some? then items[k].details.value.rest else ""))
       else
         && row.details == items[k].details
         && forall j :: 0 <= j < |items| && !items[j].archived && OneIssue(items[j], items[k]) ==> !Comments(items[j])
  }

  function Anyone(): Item -> bool {
    (i: Item) => true
  }

  lemma LatestOfGroup(items: seq<Item>, key: string) returns (k: nat)
    requires GroupOf(Active(items), key) != []
    ensures Latest(items, k, false) && Key(items[k]) == key && items[k] == Sort(NewestFirst, GroupOf(Active(items), key))[0]
  {
    var g := GroupOf(Active(items), key);
    var at := GroupInOrder(items, key);
    TimeIsPreorder(multiset(g));
    var i := FirstSorted(NewestFirst, Anyone(), g);
    LeastIsLatest(items, g, at, key, Anyone(), i, false);
    k := at[i];
  }

  lemma CommentOfGroup(items: seq<Item>, key: string) returns (c: nat)
    ensures var comment := FirstComment(Sort(NewestFirst, GroupOf(Active(items), key)));
            if comment.Some? then
              Latest(items, c, true) && Key(items[c]) == key && CommentOf(items[c]) == comment
            else
              c == |items| && forall j :: 0 <= j < |items| && !items[j].archived && Key(items[j]) == key ==> !Comments(items[j])
  {
    var g := GroupOf(Active(items), key);
    var at := GroupInOrder(items, key);
    FirstCommentIsFirst(Sort(NewestFirst, g));
    var m, some := FirstCommenting(g);
    c := |items|;
    if some {
      LeastIsLatest(items, g, at, key, HasComment, m, true);
      c := at[m];
    } else {
      NobodyComments(items, g, at, key);
    }
  }

  lemma FirstCommenting(g: seq<Item>) returns (m: nat, some: bool)
    ensures some <==> First(HasComment, Sort(NewestFirst, g)).Some?
    ensures some ==> LeastThat(NewestFirst, HasComment, g, m) && First(HasComment, Sort(NewestFirst, g)) == Some(g[m])
                     && CommentOf(g[m]).Some?
    ensures !some ==> forall i | i in g :: !HasComment(i)
  {
    TimeIsPreorder(multiset(g));
    m := FirstSorted(NewestFirst, HasComment, g);
    some := First(HasComment, Sort(NewestFirst, g)).Some?;
  }

  lemma NobodyComments(items: seq<Item>, g: seq<Item>, at: seq<nat>, key: string)
    requires Read(items, g, at, InGroup(key), SameItem) && forall i | i in g :: !HasComment(i)
    ensures forall j :: 0 <= j < |items| && !items[j].archived && Key(items[j]) == key ==> !Comments(items[j])
  {
    forall j | 0 <= j < |items| && !items[j].archived && Key(items[j]) == key ensures !Comments(items[j]) {
      var m := GroupHolds(items, g, at, key, j);
      assert g[m] in g;
    }
  }

  /**
   Each row is the latest item of its issue, the first of equally late ones; if it
   says nothing of a comment it takes over that of the latest item with one.
   */
  lemma RowIsLatest(items: seq<Item>, row: Item) returns (k: nat, c: nat)
    requires row in Deduplicated(items)
    ensures RowShows(items, row, k, c)
  {
    var active, key := Active(items), Key(row);
    KeysHave(active);
    SortHas(NewestFirst, Merged(active, KeysOf(active)), row);
    MergedAt(active, KeysOf(active), row);
    k := LatestOfGroup(items, key);
    c := CommentOfGroup(items, key);
    RowTakes(items, row, k, c, Sort(NewestFirst, GroupOf(active, key)));
  }

  lemma RowTakes(items: seq<Item>, row: Item, k: nat, c: nat, sorted: seq<Item>)
    requires sorted != [] && row == RowOf(sorted)
    requires Latest(items, k, false) && items[k] == sorted[0]
    requires var comment := FirstComment(sorted);
             if comment.Some? then Latest(items, c, true) && Key(items[c]) == Key(items[k]) && CommentOf(items[c]) == comment
             else c == |items| && forall j :: 0 <= j < |items| && !items[j].archived && Key(items[j]) == Key(items[k]) ==> !Comments(items[j])
    ensures RowShows(items, row, k, c)
  {
    FirstCommentIsNamed(sorted);
    assert forall i, j: Item :: OneIssue(i, j) <==> Key(i) == Key(j);
  }

  /** Every unarchived item has the row of its issue, no two rows are about one issue, and later rows come first. */
  lemma RowsCoverIssues(items: seq<Item>)
    ensures var rows := Deduplicated(items);
            && (forall i | i in items && !i.archived :: exists r :: r in rows && OneIssue(r, i))
            && (forall a, b :: 0 <= a < b < |rows| ==> !OneIssue(rows[a], rows[b]) && rows[a].at >= rows[b].at)
  {
    var rows := Deduplicated(items);
    OneRowPerIssue(items);
    forall i | i in items && !i.archived ensures exists r :: r in rows && OneIssue(r, i) {
      assert Key(i) in Map(Key, rows);
      var a :| 0 <= a < |rows| && Map(Key, rows)[a] == Key(i);
      assert rows[a] in rows && OneIssue(rows[a], i);
    }
    forall a, b | 0 <= a < b < |rows| ensures !OneIssue(rows[a], rows[b]) && rows[a].at >= rows[b].at {
      NoDupAt(Map(Key, rows), a, b);
      OrderedAt(NewestFirst, rows, a, b);
    }
  }
}
