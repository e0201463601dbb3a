/** When the search for replies ends, for any list of entries. */
module TimelineSearch {
  import opened Wrappers
  import opened Sequences
  import opened TimelineThread
  import opened BreadthFirst

  // The ids the search queues for an id.
  function Replies(entries: seq<Entry>): Next {
    (id: string) => Ids(Kids(entries, id))
  }

  lemma {:induction false} SameQueue(entries: seq<Entry>, queue: seq<string>, n: nat)
    ensures QueueAfter(entries, queue, n) == After(Replies(entries), queue, n)
    decreases n
  {
    if n > 0 && queue != [] {
      SameQueue(entries, queue[1..] + Ids(Kids(entries, queue[0])), n - 1);
    }
  }

  lemma RepliesAreLoaded(entries: seq<Entry>)
    ensures Within(Replies(entries), CommentIds(entries))
  {
    forall x, y | y in Replies(entries)(x) ensures y in CommentIds(entries) {
      FilterMembers(IsKidOf(entries, x), entries);
      IdsMembers(Kids(entries, x), y);
    }
  }

  /**
   For any list of entries, repeated ids included: the search from an id ends
   exactly when nothing it reaches is, at some distance, a reply of itself.
   */
  lemma EndsExactly(entries: seq<Entry>, id: string)
    ensures Ends(entries, id) <==> forall x | Reaches(Replies(entries), id, x) :: !Recurs(Replies(entries), x)
  {
    EndsIsEmpty(entries, id);
    RepliesAreLoaded(entries);
    RunsEmptyExactly(Replies(entries), CommentIds(entries), id);
  }

  lemma EndsIsEmpty(entries: seq<Entry>, id: string)
    ensures Ends(entries, id) <==> RunsEmpty(Replies(entries), id)
  {
    if Ends(entries, id) {
      var n: nat :| QueueAfter(entries, [id], n) == [];
      SameQueue(entries, [id], n);
    }
    if RunsEmpty(Replies(entries), id) {
      var n: nat :| After(Replies(entries), [id], n) == [];
      SameQueue(entries, [id], n);
    }
  }

  /** So with distinct comment ids nothing that a top-level comment reaches is a reply of itself. */
  lemma TopLevelReachesNoCycle(entries: seq<Entry>, root: Entry, x: string)
    requires UniqueIds(entries) && root in entries && root.isComment && !IsChild(entries, root)
    requires Reaches(Replies(entries), root.id, x)
    ensures !Recurs(Replies(entries), x)
  {
    UniqueIdsEnd(entries, root);
    EndsExactly(entries, root.id);
  }

  // ---- Repeated ids ----

  const REPEATED: seq<Entry> := [Entry("a", true, None), Entry("a", true, Some("a"))]
  const TWINS: seq<Entry> := [Entry("a", true, None), Entry("a", true, None)]

  lemma RepeatedKids()
    ensures !IsChild(REPEATED, REPEATED[0]) && Kids(REPEATED, "a") == [REPEATED[1]]
  {
    var top, reply, p := REPEATED[0], REPEATED[1], IsKidOf(REPEATED, "a");
    assert top in REPEATED && top.isComment && top.id == "a";
    assert "a" in CommentIds(REPEATED);
    assert !p(top) && p(reply);
    assert REPEATED[..1] == [top] && [top][..0] == [];
    assert Filter(p, [top]) == [];
  }

  /** A comment that repeats its parent's id makes the search from that top-level comment endless. */
  lemma RepeatedIdNeverEnds()
    ensures !IsChild(REPEATED, REPEATED[0]) && !Ends(REPEATED, REPEATED[0].id)
  {
    RepeatedKids();
    var kids := [REPEATED[1]];
    assert kids[..0] == [] && Ids(kids) == Ids([]) + ["a"];
    var next := Replies(REPEATED);
    assert next("a") == ["a"];
    assert Hops(next, ["a", "a"], 1);
    assert Walk(next, ["a", "a"]) && Walk(next, ["a"]);
    assert Reaches(next, "a", "a") && Recurs(next, "a");
    EndsExactly(REPEATED, "a");
  }

  lemma RecursNeedsReply(entries: seq<Entry>, x: string)
    requires Recurs(Replies(entries), x)
    ensures exists y :: y in Replies(entries)(x)
  {
    var c :| Walk(Replies(entries), c) && |c| > 1 && c[0] == x && c[|c| - 1] == x;
    assert Hops(Replies(entries), c, 1);
  }

  /** A repeated id alone does no harm: two top-level comments may share one. */
  lemma RepeatedIdMayEnd()
    ensures !UniqueIds(TWINS) && AllEnd(TWINS)
  {
    assert TWINS[0] == TWINS[1] && TWINS[0].isComment;
    assert !UniqueIds(TWINS);
    forall t | t in TopLevel(TWINS) && t.isComment ensures Ends(TWINS, t.id) {
      forall x, y ensures y !in Replies(TWINS)(x) {
        FilterMembers(IsKidOf(TWINS, x), TWINS);
        IdsMembers(Kids(TWINS, x), y);
      }
      forall x ensures !Recurs(Replies(TWINS), x) {
        if Recurs(Replies(TWINS), x) {
          RecursNeedsReply(TWINS, x);
        }
      }
      EndsExactly(TWINS, t.id);
    }
  }
}
