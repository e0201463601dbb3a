/** The rows of the timeline in terms of its entries: who is at the top, who replies to whom, and in which order. */
module ThreadReplies {
  import opened Wrappers
  import opened Sequences
  import opened TimelineThread

  // A comment whose parent is among the loaded comments.
  ghost predicate IsReply(entries: seq<Entry>, e: Entry) {
    e.isComment && e.parent.Some? && e.parent.value != "" && exists p :: p in entries && p.isComment && p.id == e.parent.value
  }

  ghost predicate Answers(p: Entry, e: Entry) {
    e.isComment && e.parent == Some(p.id) && p.id != ""
  }

  lemma ReplyExactly(entries: seq<Entry>, e: Entry)
    ensures IsChild(entries, e) <==> IsReply(entries, e)
  {
  }

  lemma AnswerExactly(entries: seq<Entry>, p: Entry, e: Entry)
    requires p in entries && p.isComment
    ensures IsKidOf(entries, p.id)(e) <==> Answers(p, e)
  {
    ReplyExactly(entries, e);
  }

  lemma {:induction false} FilterInOrder(keep: Entry -> bool, q: seq<Entry>) returns (at: seq<nat>)
    ensures Thinned(q, Filter(keep, q), at)
    ensures forall j :: 0 <= j < |q| ==> (j in at <==> keep(q[j]))
  {
    at := [];
    if q != [] {
      var n := |q| - 1;
      at := FilterInOrder(keep, q[..n]);
      LastApart(q);
      ThinnedAppend(q[..n], Filter(keep, q[..n]), at, q[n]);
      RisingAppend(at, n);
      if keep(q[n]) {
        at := at + [n];
      }
    }
  }

  // ---- The top level ----

  /** The rows are those of the entries that are no replies, in their order; only comments have replies below them. */
  lemma RowsAreTop(entries: seq<Entry>, rows: seq<Row>) returns (at: seq<nat>)
    requires FoundRows(entries, rows)
    ensures Rising(at, |entries|) && |at| == |rows|
    ensures forall j :: 0 <= j < |entries| ==> (j in at <==> !IsReply(entries, entries[j]))
    ensures forall i :: 0 <= i < |rows| ==> rows[i].entry == entries[at[i]] && (!rows[i].entry.isComment ==> rows[i].replies == [])
  {
    at := FilterInOrder(IsTop(entries), entries);
    forall j | 0 <= j < |entries| ensures j in at <==> !IsReply(entries, entries[j]) {
      ReplyExactly(entries, entries[j]);
    }
    forall i | 0 <= i < |rows| ensures rows[i].entry == entries[at[i]] && (!rows[i].entry.isComment ==> rows[i].replies == []) {
      assert FoundRow(entries, rows[i], TopLevel(entries)[i]);
    }
  }

  // ---- Below a row ----

  // The replies to one comment, in the order of the entries.
  ghost predicate RepliesTo(entries: seq<Entry>, p: Entry, kids: seq<Entry>, at: seq<nat>) {
    Thinned(entries, kids, at) && forall j :: 0 <= j < |entries| ==> (j in at <==> Answers(p, entries[j]))
  }

  ghost predicate AreRepliesTo(entries: seq<Entry>, p: Entry, kids: seq<Entry>) {
    exists at :: RepliesTo(entries, p, kids, at)
  }

  lemma KidsAnswer(entries: seq<Entry>, p: Entry)
    requires p in entries && p.isComment
    ensures AreRepliesTo(entries, p, Kids(entries, p.id))
  {
    var at := FilterInOrder(IsKidOf(entries, p.id), entries);
    forall j | 0 <= j < |entries| ensures j in at <==> Answers(p, entries[j]) {
      AnswerExactly(entries, p, entries[j]);
    }
    assert RepliesTo(entries, p, Kids(entries, p.id), at);
  }

  ghost function KidLists(entries: seq<Entry>, ids: seq<string>): seq<seq<Entry>> {
    seq(|ids|, i requires 0 <= i < |ids| => Kids(entries, ids[i]))
  }

  lemma {:induction false} FlatKidsLaid(entries: seq<Entry>, ids: seq<string>) returns (start: seq<nat>)
    ensures Laid(FlatKids(entries, ids), KidLists(entries, ids), start)
  {
    if ids == [] {
      start := [0];
    } else {
      var init, last := ids[..|ids| - 1], ids[|ids| - 1];
      start := FlatKidsLaid(entries, init);
      LaidAppend(FlatKids(entries, init), KidLists(entries, init), start, Kids(entries, last));
      start := start + [|FlatKids(entries, init)| + |Kids(entries, last)|];
      assert KidLists(entries, ids) == KidLists(entries, init) + [Kids(entries, last)];
    }
  }

  /**
   The replies of a row are the replies to its entry, then the replies to each of
   those in turn, and so on: one list for the entry and for every reply.
   */
  lemma ThreadOrder(entries: seq<Entry>, root: Entry, out: seq<Entry>) returns (kids: seq<seq<Entry>>, start: seq<nat>)
    requires UniqueIds(entries) && root in entries && root.isComment && IsThread(entries, root, out)
    ensures |kids| == |out| + 1 && Laid(out, kids, start)
    ensures forall i :: 0 <= i < |kids| ==> AreRepliesTo(entries, ([root] + out)[i], kids[i])
  {
    var ids := [root.id] + Ids(out);
    kids := KidLists(entries, ids);
    start := FlatKidsLaid(entries, ids);
    FlatKidsMembers(entries, ids);
    forall i | 0 <= i < |kids| ensures AreRepliesTo(entries, ([root] + out)[i], kids[i]) {
      var p := ([root] + out)[i];
      if i > 0 {
        IdAt(out, i - 1);
        assert p in out;
      }
      assert ids[i] == p.id;
      KidsAnswer(entries, p);
    }
  }

  // ---- Who is there ----

  // A line of comments from the root, each answering the one before it.
  ghost predicate LineOfReplies(entries: seq<Entry>, root: Entry, e: Entry, c: seq<Entry>) {
    && |c| > 1 && c[0] == root && c[|c| - 1] == e && root.isComment
    && (forall x | x in c :: x in entries)
    && forall i :: 0 <= i < |c| - 1 ==> Answers(c[i], c[i + 1])
  }

  lemma {:induction false} LineClimbs(entries: seq<Entry>, root: Entry, e: Entry, c: seq<Entry>)
    requires UniqueIds(entries) && LineOfReplies(entries, root, e, c)
    ensures Ancestor(entries, e, |c| - 1) == Some(root)
    decreases |c|
  {
    var n := |c| - 1;
    var p := c[n - 1];
    assert Answers(p, e) && p in entries && c[0] in entries;
    assert n > 1 ==> Answers(c[n - 2], p);
    ParentComment(entries, e, p);
    if n > 1 {
      forall i | 0 <= i < n - 1 ensures Answers(c[..n][i], c[..n][i + 1]) {
        assert Answers(c[i], c[i + 1]);
      }
      LineClimbs(entries, root, p, c[..n]);
    }
  }

  lemma {:induction false} ClimbIsLine(entries: seq<Entry>, root: Entry, e: Entry, d: nat) returns (c: seq<Entry>)
    requires UniqueIds(entries) && e in entries && d > 0 && Ancestor(entries, e, d) == Some(root)
    ensures LineOfReplies(entries, root, e, c)
    decreases d
  {
    var p := CommentOf(entries, e.parent.value);
    if d == 1 {
      c := [root, e];
    } else {
      c := ClimbIsLine(entries, root, p, d - 1);
      var n := |c|;
      forall i | 0 <= i < n ensures Answers((c + [e])[i], (c + [e])[i + 1]) {
        assert i < n - 1 ==> Answers(c[i], c[i + 1]);
      }
      c := c + [e];
    }
  }

  /** A row's replies are, once each, the entries that a line of replies leads to from its entry. */
  lemma RepliesAreLines(entries: seq<Entry>, root: Entry, out: seq<Entry>, e: Entry)
    requires UniqueIds(entries) && root in entries && root.isComment && IsThread(entries, root, out)
    ensures e in out <==> e in entries && exists c :: LineOfReplies(entries, root, e, c)
    ensures forall i, j :: 0 <= i < j < |out| ==> out[i].id != out[j].id
  {
    ThreadIsDescendants(entries, root, out, e);
    if e in entries && Descends(entries, root, e) {
      var d: nat :| ReplyAt(entries, root, e, d);
      var c := ClimbIsLine(entries, root, e, d);
    }
    if e in entries && exists c :: LineOfReplies(entries, root, e, c) {
      var c :| LineOfReplies(entries, root, e, c);
      LineClimbs(entries, root, e, c);
      assert ReplyAt(entries, root, e, |c| - 1);
    }
    forall i, j | 0 <= i < j < |out| ensures out[i].id != out[j].id {
      NoDupAt(Ids(out), i, j);
      IdAt(out, i);
      IdAt(out, j);
    }
  }
}
