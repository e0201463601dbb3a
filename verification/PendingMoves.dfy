/** Where each event of the pending queue puts its task, and what it leaves of all other fields and rows. */
module PendingMoves {
  import opened Wrappers
  import opened Sequences
  import opened Sorting
  import opened PendingQueue

  // The queue holds this task, with these rows before and behind it.
  ghost predicate Queues(s: Pending, a: seq<QueuedTask>, t: QueuedTask, b: seq<QueuedTask>) {
    Inv(s) && s.queued_tasks == Some(a + [t] + b)
  }

  ghost predicate Headed(s: Pending, head: string) {
    s.task_id == Some(head) && head != ""
  }

  ghost predicate Headless(s: Pending) {
    s.task_id == None || s.task_id == Some("")
  }

  lemma {:induction false} DropAround(a: seq<QueuedTask>, t: QueuedTask, b: seq<QueuedTask>)
    requires Distinct(a + [t] + b)
    ensures Drop(a + [t] + b, t.task_id) == a + b && Find(a + [t] + b, t.task_id) == Some(t)
  {
    var q := a + [t] + b;
    if a == [] {
      assert q[0] == t && q[1..] == b && a + b == b;
      DropUnknown(b, t.task_id);
    } else {
      assert q[0] == a[0] && q[1..] == a[1..] + [t] + b;
      assert t in q[1..];
      IdsOf(q[1..], t.task_id);
      DropAround(a[1..], t, b);
      HeadTail(a);
      ConcatAssoc([a[0]], a[1..], b);
    }
  }

  lemma NotQueued(s: Pending, id: string)
    requires Inv(s) && s.task_id == Some(id)
    ensures Drop(Queue(s), id) == Queue(s)
  {
    DropUnknown(Queue(s), id);
  }

  // ---- Prioritising and removing ----

  /** A prioritised task goes to the front; all others keep their order, and everything else stays. */
  lemma PrioritizeMovesToFront(o: Order, s: Pending, head: string, a: seq<QueuedTask>, t: QueuedTask, b: seq<QueuedTask>)
    requires Headed(s, head) && Queues(s, a, t, b)
    ensures Next(o, s, PrioritizeEvent(t.task_id)) == s.(queued_tasks := Some([t] + (a + b)))
  {
    DropAround(a, t, b);
  }

  /** A removed task leaves its gap; everything else stays. */
  lemma RemoveClosesGap(o: Order, s: Pending, head: string, a: seq<QueuedTask>, t: QueuedTask, b: seq<QueuedTask>)
    requires Headed(s, head) && Queues(s, a, t, b)
    ensures Next(o, s, RemoveEvent(t.task_id)) == s.(queued_tasks := Some(a + b))
  {
    DropAround(a, t, b);
    var q := a + [t] + b;
    assert t in q;
    IdsOf(q, t.task_id);
  }

  // The task as the head, with this queue behind it.
  ghost predicate HeadIs(r: Pending, t: QueuedTask, supports: Option<bool>, queue: seq<QueuedTask>) {
    && r.task_id == Some(t.task_id) && r.status == Some(t.status) && r.created_at == Some(t.created_at)
    && r.message_id == t.message_id && r.content == t.content && r.wait_reason == None
    && r.supports_queue == supports && r.queued_tasks == Some(queue)
  }

  /** When the head is removed the first queued task takes its place and the rest keeps its order; without one nothing is left. */
  lemma RemoveHeadAdvances(o: Order, s: Pending, head: string)
    requires Headed(s, head) && Inv(s)
    ensures var q, r := Queue(s), Next(o, s, RemoveEvent(head));
            if q == [] then r == Pending(None, None, None, None, None, None, None, None)
            else HeadIs(r, q[0], s.supports_queue, q[1..])
  {
    NotQueued(s, head);
    UniqueOfDistinct(Queue(s));
  }

  /**
   Without a head, removing and prioritising leave nothing at all, and promoting
   changes nothing. With one, nothing happens to a task that is not known.
   */
  lemma StrayEventsLeave(o: Order, s: Pending, id: string, status: string, createdAt: Option<string>, waitReason: Option<string>)
    ensures Headless(s) ==>
              && Next(o, s, RemoveEvent(id)) == Pending(None, None, None, None, None, None, None, None)
              && Next(o, s, PrioritizeEvent(id)) == Pending(None, None, None, None, None, None, None, None)
    ensures Headless(s) && s.task_id != Some(id) ==> Next(o, s, PromoteEvent(id, status, createdAt, waitReason)) == s
    ensures !Headless(s) && s.task_id != Some(id) && (forall t | t in Queue(s) :: t.task_id != id) ==>
              && Next(o, s, RemoveEvent(id)) == s.(queued_tasks := Some(Queue(s)))
              && Next(o, s, PrioritizeEvent(id)) == s && Next(o, s, PromoteEvent(id, status, createdAt, waitReason)) == s
  {
    IdsOf(Queue(s), id);
    if forall t | t in Queue(s) :: t.task_id != id {
      DropUnknown(Queue(s), id);
      FindMembers(Queue(s), id);
    }
  }

  // ---- Promoting ----

  // Where a head that still waits goes when another task is promoted: back into the queue, without its message.
  ghost predicate GoesBack(s: Pending, head: string, back: seq<QueuedTask>) {
    if s.status == None || s.status == Some("queued") then
      |back| == 1 && back[0] == QueuedTask(head, "queued", s.created_at.GetOr(""), None, None)
    else back == []
  }

  // A reason to wait is shown only while waiting for the local directory.
  ghost predicate Waits(r: Pending, status: string, incoming: Option<string>, existing: Option<string>) {
    if status == "waiting_local_directory" then (if incoming.Some? then r.wait_reason == incoming else r.wait_reason == existing)
    else r.wait_reason == None
  }

  /**
   A promoted task becomes the head with the event's status; a waiting head goes to
   the front of the queue, and all other rows keep their order.
   */
  lemma PromoteSwapsHead(o: Order, s: Pending, head: string, a: seq<QueuedTask>, t: QueuedTask, b: seq<QueuedTask>,
                         status: string, createdAt: Option<string>, waitReason: Option<string>, back: seq<QueuedTask>)
    requires Headed(s, head) && Queues(s, a, t, b) && GoesBack(s, head, back)
    ensures var r := Next(o, s, PromoteEvent(t.task_id, status, createdAt, waitReason));
            && r.task_id == Some(t.task_id) && r.status == Some(status)
            && r.created_at == Some(if t.created_at != "" then t.created_at else createdAt.GetOr(""))
            && Waits(r, status, waitReason, None)
            && r.supports_queue == s.supports_queue && r.message_id == t.message_id && r.content == t.content
            && r.queued_tasks == Some(back + (a + b))
  {
    PromotedQueue(s, head, a, t, b, back);
  }

  lemma PromotedQueue(s: Pending, head: string, a: seq<QueuedTask>, t: QueuedTask, b: seq<QueuedTask>, back: seq<QueuedTask>)
    requires Headed(s, head) && Queues(s, a, t, b) && GoesBack(s, head, back)
    ensures t.task_id != head && Find(Queue(s), t.task_id) == Some(t)
    ensures Unique(Demoted(s) + Drop(Queue(s), t.task_id)) == back + (a + b)
  {
    DropAround(a, t, b);
    var q := Queue(s);
    assert t in q;
    IdsOf(q, t.task_id);
    assert Demoted(s) == back;
    DropMembers(q, t.task_id);
    BackIsDistinct(head, back, a + b);
    UniqueOfDistinct(back + (a + b));
  }

  lemma BackIsDistinct(head: string, back: seq<QueuedTask>, rest: seq<QueuedTask>)
    requires Distinct(rest) && head !in Ids(rest) && (back == [] || (|back| == 1 && back[0].task_id == head))
    ensures Distinct(back + rest)
  {
    if back == [] {
      assert back + rest == rest;
    } else {
      assert (back + rest)[0] == back[0] && (back + rest)[1..] == rest;
    }
  }

  /** A promotion of the head itself changes its status and its reason to wait, and nothing else. */
  lemma PromoteHeadUpdates(o: Order, s: Pending, head: string, status: string, createdAt: Option<string>, waitReason: Option<string>)
    requires s.task_id == Some(head) && Inv(s)
    ensures var r := Next(o, s, PromoteEvent(head, status, createdAt, waitReason));
            && Waits(r, status, waitReason, s.wait_reason)
            && r == s.(status := Some(status), wait_reason := r.wait_reason, queued_tasks := Some(Queue(s)))
  {
    NotQueued(s, head);
  }

  // ---- Enqueueing ----

  ghost predicate Carries(t: QueuedTask) {
    t.message_id.Some? && t.message_id.value != ""
  }

  // The same rows, oldest first with ties by id, as long as all times parse.
  ghost predicate Normal(o: Order, q: seq<QueuedTask>, r: seq<QueuedTask>) {
    && multiset(r) == multiset(q)
    && (Collates(o) && (forall t | t in q :: o.time(t.created_at).Some?) ==>
          forall i, j :: 0 <= i < j < |r| ==> NotLater(o, r[i], r[j]))
  }

  ghost predicate NotLater(o: Order, a: QueuedTask, b: QueuedTask) {
    && o.time(a.created_at).Some? && o.time(b.created_at).Some?
    && (o.time(a.created_at).value < o.time(b.created_at).value
        || (o.time(a.created_at).value == o.time(b.created_at).value && o.collate(a.task_id, b.task_id) <= 0))
  }

  lemma NormalizeIsNormal(o: Order, q: seq<QueuedTask>)
    requires Distinct(q)
    ensures Normal(o, q, Normalize(o, q))
  {
    UniqueOfDistinct(q);
    SortMembers(Compare(o), q);
    var r := Normalize(o, q);
    if Collates(o) && forall t | t in q :: o.time(t.created_at).Some? {
      NormalizeIsFifo(o, q);
      forall i, j | 0 <= i < j < |r| ensures NotLater(o, r[i], r[j]) {
        OrderedAt(Compare(o), r, i, j);
        SortHas(Compare(o), q, r[i]);
        SortHas(Compare(o), q, r[j]);
        assert r[i] in r && r[j] in r;
      }
    }
  }

  /** Without a head, a queued task replaces whatever was queued, and any other becomes the head before the rest of the queue. */
  lemma EnqueueWithoutHead(o: Order, s: Pending, task: QueuedTask)
    requires Headless(s) && Inv(s)
    ensures Next(o, s, EnqueueEvent(task, Some(true))) == Pending(None, None, None, None, s.supports_queue, Some([task]), None, None)
    ensures Next(o, s, EnqueueEvent(task, None)) == Next(o, s, EnqueueEvent(task, Some(false)))
    ensures exists rest, r :: && HeadIs(Next(o, s, EnqueueEvent(task, None)), task, s.supports_queue, r) && Normal(o, rest, r)
                              && forall t :: t in rest <==> t in Queue(s) && t.task_id != task.task_id
  {
    var rest := Drop(Queue(s), task.task_id);
    DropMembers(Queue(s), task.task_id);
    NormalizeIsNormal(o, rest);
    assert HeadIs(Next(o, s, EnqueueEvent(task, None)), task, s.supports_queue, Normalize(o, rest));
  }

  /** A late notice of the head fills in what the head lacks, and never takes back its status or its creation time. */
  lemma EnqueueOfHead(o: Order, s: Pending, task: QueuedTask, queued: Option<bool>)
    requires Headed(s, task.task_id) && Inv(s)
    ensures var r := Next(o, s, EnqueueEvent(task, queued));
            && r.task_id == s.task_id && r.wait_reason == s.wait_reason && r.supports_queue == s.supports_queue
            && r.queued_tasks == Some(Queue(s))
            && (if s.status == None || s.status == Some("") || s.status == Some("queued") then r.status == Some(task.status)
                else r.status == s.status)
            && (if s.created_at == None || s.created_at == Some("") then r.created_at == Some(task.created_at)
                else r.created_at == s.created_at)
            && (if task.message_id.Some? then r.message_id == task.message_id else r.message_id == s.message_id)
            && (if task.content.Some? then r.content == task.content else r.content == s.content)
  {
    NotQueued(s, task.task_id);
  }

  /** A task that is not queued replaces another head, and its queue. */
  lemma EnqueueReplacesHead(o: Order, s: Pending, head: string, task: QueuedTask)
    requires Headed(s, head) && task.task_id != head
    ensures HeadIs(Next(o, s, EnqueueEvent(task, Some(false))), task, s.supports_queue, [])
    ensures Next(o, s, EnqueueEvent(task, None)) == Next(o, s, EnqueueEvent(task, Some(true)))
  {
  }

  // One more observation of a queue without repetition.
  lemma NormalizeOneMore(o: Order, q: seq<QueuedTask>, task: QueuedTask)
    requires Distinct(q)
    ensures Normal(o, Put(q, task), Normalize(o, q + [task]))
  {
    UniqueOfDistinct(q);
    assert (q + [task])[..|q|] == q;
    PutIsSound(q, task);
    UniqueOfDistinct(Put(q, task));
    NormalizeIsNormal(o, Put(q, task));
  }

  /** A new task joins the queue, which is put in order; everything else stays. */
  lemma EnqueueJoins(o: Order, s: Pending, head: string, task: QueuedTask)
    requires Headed(s, head) && Inv(s) && task.task_id != head && forall t | t in Queue(s) :: t.task_id != task.task_id
    ensures var r := Next(o, s, EnqueueEvent(task, None));
            && r == s.(queued_tasks := r.queued_tasks)
            && r.queued_tasks.Some? && Normal(o, Queue(s) + [task], r.queued_tasks.value)
  {
    PutNew(Queue(s), task);
    NormalizeOneMore(o, Queue(s), task);
    QueuedEnqueue(o, s, head, task);
  }

  lemma PutNew(q: seq<QueuedTask>, task: QueuedTask)
    requires forall t | t in q :: t.task_id != task.task_id
    ensures Put(q, task) == q + [task]
  {
    forall j | 0 <= j < |q| ensures q[j].task_id != task.task_id {
      assert q[j] in q;
    }
    PutAt(q, task, |q|);
  }

  lemma QueuedEnqueue(o: Order, s: Pending, head: string, task: QueuedTask)
    requires Headed(s, head) && task.task_id != head
    ensures Next(o, s, EnqueueEvent(task, None)) == s.(queued_tasks := Some(Normalize(o, Queue(s) + [task])))
  {
  }

  lemma PutAround(a: seq<QueuedTask>, t: QueuedTask, b: seq<QueuedTask>, task: QueuedTask)
    requires Distinct(a + [t] + b) && task.task_id == t.task_id
    ensures Put(a + [t] + b, task) == a + [if Carries(task) then task else t] + b
  {
    var q := a + [t] + b;
    assert q[|a|] == t;
    forall j | 0 <= j < |a| ensures q[j].task_id != t.task_id {
      DistinctAt(q, j, |a|);
    }
    PutAt(q, task, |a|);
    assert q[|a| := task] == a + [task] + b;
  }

  /** A further notice of a queued task takes over its row if it carries a message, and changes no row otherwise. */
  lemma EnqueueAgain(o: Order, s: Pending, head: string, a: seq<QueuedTask>, t: QueuedTask, b: seq<QueuedTask>, task: QueuedTask)
    requires Headed(s, head) && Queues(s, a, t, b) && task.task_id == t.task_id
    ensures var r := Next(o, s, EnqueueEvent(task, None));
            && r == s.(queued_tasks := r.queued_tasks)
            && r.queued_tasks.Some? && Normal(o, a + [if Carries(task) then task else t] + b, r.queued_tasks.value)
  {
    var q := Queue(s);
    assert q == a + [t] + b && t in q;
    IdsOf(q, t.task_id);
    PutAround(a, t, b, task);
    NormalizeOneMore(o, q, task);
    QueuedEnqueue(o, s, head, task);
  }

  lemma {:induction false} DistinctAt(q: seq<QueuedTask>, i: nat, j: nat)
    requires Distinct(q) && i < j < |q|
    ensures q[i].task_id != q[j].task_id
  {
    if i == 0 {
      assert q[1..][j - 1] == q[j] && q[j] in q[1..];
      IdsOf(q[1..], q[j].task_id);
    } else {
      DistinctAt(q[1..], i - 1, j - 1);
    }
  }

  // ---- One row for each task ----

  // The row of a task first observed at `f`: its latest observation with a message, or else its first, which is at `k`.
  ghost predicate RowAt(tasks: seq<QueuedTask>, row: QueuedTask, f: nat, k: nat) {
    && f < |tasks| && k < |tasks| && row == tasks[k] && tasks[f].task_id == row.task_id
    && (forall j :: 0 <= j < f ==> tasks[j].task_id != row.task_id)
    && if Carries(row) then forall j :: k < j < |tasks| && tasks[j].task_id == row.task_id ==> !Carries(tasks[j])
       else k == f && forall j :: 0 <= j < |tasks| && tasks[j].task_id == row.task_id ==> !Carries(tasks[j])
  }

  // The rows stand in the order of first observations.
  ghost predicate RowsAt(tasks: seq<QueuedTask>, rows: seq<QueuedTask>, first: seq<nat>, shown: seq<nat>) {
    && Rising(first, |tasks|) && |first| == |shown| == |rows|
    && forall i :: 0 <= i < |rows| ==> RowAt(tasks, rows[i], first[i], shown[i])
  }

  lemma RowStays(tasks: seq<QueuedTask>, row: QueuedTask, f: nat, k: nat, x: QueuedTask)
    requires RowAt(tasks, row, f, k) && (x.task_id == row.task_id ==> !Carries(x))
    ensures RowAt(tasks + [x], row, f, k)
  {
  }

  lemma RowRenewed(tasks: seq<QueuedTask>, row: QueuedTask, f: nat, k: nat, x: QueuedTask)
    requires RowAt(tasks, row, f, k) && x.task_id == row.task_id && Carries(x)
    ensures RowAt(tasks + [x], x, f, |tasks|)
  {
  }

  lemma RowAdded(tasks: seq<QueuedTask>, x: QueuedTask)
    requires x.task_id !in Ids(tasks)
    ensures RowAt(tasks + [x], x, |tasks|, |tasks|)
  {
    forall j | 0 <= j < |tasks| ensures tasks[j].task_id != x.task_id {
      assert tasks[j] in tasks;
      IdsOf(tasks, tasks[j].task_id);
    }
  }

  lemma RowsRenewed(tasks: seq<QueuedTask>, rows: seq<QueuedTask>, first: seq<nat>, shown: seq<nat>, x: QueuedTask, p: nat)
    requires RowsAt(tasks, rows, first, shown) && Distinct(rows) && p < |rows| && rows[p].task_id == x.task_id && Carries(x)
    ensures RowsAt(tasks + [x], rows[p := x], first, shown[p := |tasks|])
  {
    RisingAppend(first, |tasks|);
    forall i | 0 <= i < |rows| ensures RowAt(tasks + [x], rows[p := x][i], first[i], shown[p := |tasks|][i]) {
      if i == p {
        RowRenewed(tasks, rows[i], first[i], shown[i], x);
      } else {
        OnlyThere(rows, p, i);
        RowStays(tasks, rows[i], first[i], shown[i], x);
      }
    }
  }

  lemma OnlyThere(rows: seq<QueuedTask>, p: nat, i: nat)
    requires Distinct(rows) && p < |rows| && i < |rows| && i != p
    ensures rows[i].task_id != rows[p].task_id
  {
    if i < p {
      DistinctAt(rows, i, p);
    } else {
      DistinctAt(rows, p, i);
    }
  }

  lemma RowsStay(tasks: seq<QueuedTask>, rows: seq<QueuedTask>, first: seq<nat>, shown: seq<nat>, x: QueuedTask)
    requires RowsAt(tasks, rows, first, shown) && !Carries(x)
    ensures RowsAt(tasks + [x], rows, first, shown)
  {
    RisingAppend(first, |tasks|);
    forall i | 0 <= i < |rows| ensures RowAt(tasks + [x], rows[i], first[i], shown[i]) {
      RowStays(tasks, rows[i], first[i], shown[i], x);
    }
  }

  lemma RowsAdded(tasks: seq<QueuedTask>, rows: seq<QueuedTask>, first: seq<nat>, shown: seq<nat>, x: QueuedTask)
    requires RowsAt(tasks, rows, first, shown) && x.task_id !in Ids(tasks) && x.task_id !in Ids(rows)
    ensures RowsAt(tasks + [x], rows + [x], first + [|tasks|], shown + [|tasks|])
  {
    RisingAppend(first, |tasks|);
    RowAdded(tasks, x);
    forall i | 0 <= i < |rows| ensures RowAt(tasks + [x], rows[i], first[i], shown[i]) {
      assert rows[i] in rows;
      IdsOf(rows, rows[i].task_id);
      RowStays(tasks, rows[i], first[i], shown[i], x);
    }
  }

  lemma PositionOf(rows: seq<QueuedTask>, id: string) returns (p: nat)
    requires id in Ids(rows) && Distinct(rows)
    ensures p < |rows| && rows[p].task_id == id && forall j :: 0 <= j < p ==> rows[j].task_id != id
  {
    IdsOf(rows, id);
    var t :| t in rows && t.task_id == id;
    p :| p < |rows| && rows[p] == t;
    forall j | 0 <= j < p ensures rows[j].task_id != id {
      OnlyThere(rows, p, j);
    }
  }

  lemma OneRowMore(tasks: seq<QueuedTask>, rows: seq<QueuedTask>, first: seq<nat>, shown: seq<nat>, x: QueuedTask)
    returns (first': seq<nat>, shown': seq<nat>)
    requires RowsAt(tasks, rows, first, shown) && Distinct(rows) && Ids(rows) == Ids(tasks)
    ensures RowsAt(tasks + [x], Put(rows, x), first', shown')
  {
    first', shown' := first, shown;
    if x.task_id in Ids(rows) {
      var p := PositionOf(rows, x.task_id);
      PutAt(rows, x, p);
      if Carries(x) {
        RowsRenewed(tasks, rows, first, shown, x, p);
        shown' := shown[p := |tasks|];
      } else {
        RowsStay(tasks, rows, first, shown, x);
      }
    } else {
      forall j | 0 <= j < |rows| ensures rows[j].task_id != x.task_id {
        assert rows[j] in rows;
        IdsOf(rows, rows[j].task_id);
      }
      PutAt(rows, x, |rows|);
      RowsAdded(tasks, rows, first, shown, x);
      first', shown' := first + [|tasks|], shown + [|tasks|];
    }
  }

  /**
   Making a queue unique keeps one row for each task, in the order of first
   observations: the latest one with a message, or the first when none has one.
   */
  lemma {:induction false} UniqueRows(tasks: seq<QueuedTask>) returns (first: seq<nat>, shown: seq<nat>)
    ensures RowsAt(tasks, Unique(tasks), first, shown)
  {
    first, shown := [], [];
    if tasks != [] {
      var init, x := tasks[..|tasks| - 1], tasks[|tasks| - 1];
      LastApart(tasks);
      first, shown := UniqueRows(init);
      UniqueIsSound(init);
      first, shown := OneRowMore(init, Unique(init), first, shown, x);
    }
  }

  // ---- Hiding ----

  // The last row that names the message belongs to the message's own task.
  ghost predicate OwnRowLast(q: seq<QueuedTask>, m: Message) {
    m.task_id.Some? && m.id != ""
    && exists i :: 0 <= i < |q| && q[i].message_id == Some(m.id) && q[i].task_id == m.task_id.value
                   && forall j :: i < j < |q| ==> q[j].message_id != Some(m.id)
  }

  lemma {:induction false} OwnerExact(q: seq<QueuedTask>, m: Message)
    ensures m.task_id.Some? && Owner(q, m.id) == m.task_id <==> OwnRowLast(q, m)
  {
    if q != [] {
      var n := |q| - 1;
      OwnerExact(q[..n], m);
      if OwnRowLast(q[..n], m) && q[n].message_id != Some(m.id) {
        var i :| 0 <= i < n && q[..n][i].message_id == Some(m.id) && q[..n][i].task_id == m.task_id.value
                 && forall j :: i < j < n ==> q[..n][j].message_id != Some(m.id);
        assert q[i].message_id == Some(m.id) && forall j :: i < j < n ==> q[j] == q[..n][j];
      }
      if OwnRowLast(q, m) && q[n].message_id != Some(m.id) {
        var i :| 0 <= i < |q| && q[i].message_id == Some(m.id) && q[i].task_id == m.task_id.value
                 && forall j :: i < j < |q| ==> q[j].message_id != Some(m.id);
        assert q[..n][i] == q[i] && forall j :: i < j < n ==> q[..n][j] == q[j];
      }
      if q[n].message_id == Some(m.id) && m.id != "" {
        assert OwnRowLast(q, m) ==> q[n].task_id == m.task_id.value;
      }
    }
  }

  ghost function Visible(s: Pending): Message -> bool {
    (m: Message) => !OwnRowLast(Queue(s), m)
  }

  ghost function Itself(): (Message, Message) -> bool {
    (m: Message, n: Message) => m == n
  }

  lemma {:induction false} VisibleRead(messages: seq<Message>, s: Pending) returns (at: seq<nat>)
    ensures Read(messages, HideQueued(messages, s), at, Visible(s), Itself())
  {
    at := [];
    if messages != [] {
      var rest := VisibleRead(messages[1..], s);
      OwnerExact(Queue(s), messages[0]);
      HeadTail(messages);
      if OwnRowLast(Queue(s), messages[0]) {
        ReadSkips(messages[0], messages[1..], HideQueued(messages[1..], s), rest, Visible(s), Itself());
        at := Later(rest);
      } else {
        ReadTakes(messages[0], messages[0], messages[1..], HideQueued(messages[1..], s), rest, Visible(s), Itself());
        at := [0] + Later(rest);
      }
    }
  }

  /** Exactly the messages whose own task has the last row that names them are hidden; the rest keep their order. */
  lemma HiddenExactly(messages: seq<Message>, s: Pending) returns (at: seq<nat>)
    ensures Thinned(messages, HideQueued(messages, s), at)
    ensures forall j :: 0 <= j < |messages| ==> (j in at <==> !OwnRowLast(Queue(s), messages[j]))
  {
    at := VisibleRead(messages, s);
  }
}
