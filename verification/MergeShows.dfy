/** Merged messages one by one: which message each merge shows, and which a whole run shows. */
module MergeShows {
  import opened Sequences
  import opened SeqMerge

  // The first message with its number, and the last one.
  ghost predicate FirstOf(xs: seq<Message>, x: Message, i: int) {
    0 <= i < |xs| && xs[i] == x && forall j :: 0 <= j < i ==> xs[j].number != x.number
  }

  ghost predicate LastOf(xs: seq<Message>, x: Message, i: int) {
    0 <= i < |xs| && xs[i] == x && forall j :: i < j < |xs| ==> xs[j].number != x.number
  }

  ghost predicate Mentions(xs: seq<Message>, k: int) {
    exists x :: x in xs && x.number == k
  }

  ghost predicate IsFirst(xs: seq<Message>, x: Message) {
    exists i :: FirstOf(xs, x, i)
  }

  ghost predicate IsLast(xs: seq<Message>, x: Message) {
    exists i :: LastOf(xs, x, i)
  }

  lemma FirstAppend(xs: seq<Message>, last: Message, x: Message)
    ensures IsFirst(xs + [last], x) <==> IsFirst(xs, x) || (x == last && !Mentions(xs, x.number))
    ensures Mentions(xs + [last], x.number) <==> Mentions(xs, x.number) || last.number == x.number
  {
    if i :| FirstOf(xs, x, i) {
      assert FirstOf(xs + [last], x, i);
    }
    if i :| FirstOf(xs + [last], x, i) {
      if i < |xs| {
        assert forall j :: 0 <= j < i ==> xs[j] == (xs + [last])[j];
        assert FirstOf(xs, x, i);
      } else {
        forall y | y in xs ensures y.number != x.number {
          var j :| 0 <= j < |xs| && xs[j] == y;
          assert (xs + [last])[j] == y;
        }
      }
    }
    if x == last && !Mentions(xs, x.number) {
      forall j | 0 <= j < |xs| ensures (xs + [last])[j].number != x.number {
        assert xs[j] in xs;
      }
      assert FirstOf(xs + [last], x, |xs|);
    }
    assert last in xs + [last] && forall y :: y in xs + [last] <==> y in xs || y == last;
  }

  lemma LastAppend(xs: seq<Message>, last: Message, x: Message)
    ensures IsLast(xs + [last], x) <==> x == last || (IsLast(xs, x) && last.number != x.number)
  {
    if x == last {
      assert LastOf(xs + [last], x, |xs|);
    }
    if last.number != x.number {
      if i :| LastOf(xs, x, i) {
        assert LastOf(xs + [last], x, i);
      }
    }
    if i :| LastOf(xs + [last], x, i) {
      if i < |xs| {
        assert (xs + [last])[|xs|] == last;
        forall j | i < j < |xs| ensures xs[j].number != x.number {
          assert (xs + [last])[j] == xs[j];
        }
        assert LastOf(xs, x, i);
      }
    }
  }

  // A message is filed in the map.
  ghost predicate FiledIn(m: Index, x: Message) {
    x.number in m && m[x.number] == x
  }

  lemma {:induction false} PlainFiles(m: Index, xs: seq<Message>, x: Message)
    ensures FiledIn(AcceptAll(m, xs, false), x) <==> FiledIn(m, x) || (x.number !in m && IsFirst(xs, x))
    ensures x.number in AcceptAll(m, xs, false) <==> x.number in m || Mentions(xs, x.number)
  {
    if xs != [] {
      LastApart(xs);
      PlainFiles(m, xs[..|xs| - 1], x);
      FirstAppend(xs[..|xs| - 1], xs[|xs| - 1], x);
    }
  }

  lemma {:induction false} AuthoritativeFiles(m: Index, xs: seq<Message>, x: Message)
    ensures FiledIn(AcceptAll(m, xs, true), x) <==> IsLast(xs, x) || (FiledIn(m, x) && !Mentions(xs, x.number))
  {
    if xs != [] {
      LastApart(xs);
      AuthoritativeFiles(m, xs[..|xs| - 1], x);
      LastAppend(xs[..|xs| - 1], xs[|xs| - 1], x);
      FirstAppend(xs[..|xs| - 1], xs[|xs| - 1], x);
    }
  }

  lemma ListFiles(q: seq<Message>, x: Message)
    requires Increasing(q)
    ensures FiledIn(AsMap(q), x) <==> x in q
    ensures x.number in AsMap(q) <==> Mentions(q, x.number)
  {
    IncreasingLists(q);
    if x.number in AsMap(q) {
      assert AsMap(q)[x.number] in q;
    }
  }

  /**
   A plain merge keeps every cached message and adds, for each new number, the
   first message of the batch; an authoritative one shows the batch's last
   message of each of its numbers and keeps the others.
   */
  lemma MergeShowsExactly(existing: seq<Message>, incoming: seq<Message>, authoritative: bool, same: bool, shared: bool, x: Message)
    requires (forall i, j :: 0 <= i < j < |existing| ==> existing[i].number < existing[j].number)
    requires Attested(existing, incoming, same, shared)
    ensures var r := Merged(existing, incoming, authoritative, same, shared);
            && (forall i, j :: 0 <= i < j < |r| ==> r[i].number < r[j].number)
            && (x in r <==> if authoritative then IsLast(incoming, x) || (x in existing && !Mentions(incoming, x.number))
                            else x in existing || (!Mentions(existing, x.number) && IsFirst(incoming, x)))
  {
    FastPathsAgree(existing, incoming, authoritative, same, shared);
    MergeIsUnion(existing, incoming, authoritative);
    var r := MapAndSort(existing, incoming, authoritative);
    ListFiles(existing, x);
    ListFiles(r, x);
    if authoritative {
      AuthoritativeFiles(AsMap(existing), incoming, x);
    } else {
      PlainFiles(AsMap(existing), incoming, x);
    }
  }

  ghost predicate Sent(batches: seq<Batch>, x: Message) {
    exists b :: b in batches && x in b.messages
  }

  lemma {:induction false} DeliveredIsSent(batches: seq<Batch>, log: Index, x: Message)
    requires FiledIn(log, x) && forall b | b in batches :: FromLog(b.messages, log)
    ensures x.number in Delivered(batches) <==> Sent(batches, x)
  {
    if batches != [] {
      var init, b := batches[..|batches| - 1], batches[|batches| - 1];
      InitLast(batches);
      DeliveredIsSent(init, log, x);
      if x.number in Numbers(b.messages) {
        var y :| y in b.messages && y.number == x.number;
        assert y == x;
      }
    }
  }

  /** A run of merges of one log shows, in order, exactly the messages that some batch brought. */
  lemma RunShowsSent(batches: seq<Batch>, log: Index, x: Message)
    requires Filed(log) && AllAttested(batches) && forall b | b in batches :: FromLog(b.messages, log)
    ensures x in Run(batches) <==> Sent(batches, x)
    ensures forall i, j :: 0 <= i < j < |Run(batches)| ==> Run(batches)[i].number < Run(batches)[j].number
  {
    RunIsDelivered(batches, log);
    ListFiles(Run(batches), x);
    if FiledIn(log, x) {
      DeliveredIsSent(batches, log, x);
    }
  }
}
